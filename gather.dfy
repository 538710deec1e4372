/**
 * The two collectives that bring the local results to rank 0: `Gather` of one
 * integer per rank, and `Gatherv` of a variable number of integers per rank
 * with the displacements left to mpi4py. Each rank's contribution is an entry
 * of a sequence indexed by rank; the transport itself is not modelled.
 */
module Gather {
  import opened Wrappers
  import opened Sums

  /** The ways a `Gatherv` call is erroneous in MPI; the model refuses them. */
  datatype GatherError =
    | WrongRankCount   // the receive counts do not have one entry per rank
    | CountMismatch    // a rank sends a different number of elements than the root expects from it
    | BufferOverflow   // the placed contributions run past the end of the receive buffer

  /** `Gather` of one integer per rank into the root's `size`-element buffer, in rank order. */
  method GatherToRoot(recv: array<int>, sent: seq<int>)
    requires recv.Length == |sent|
    modifies recv
    ensures recv[..] == sent
  {
    for k := 0 to |sent|
      invariant recv[..k] == sent[..k]
    {
      recv[k] := sent[k];
    }
  }

  /** Displacements as mpi4py derives them when given `None`: each one where the previous contribution ends. */
  function DisplacementsFrom(acc: int, counts: seq<int>): (d: seq<int>)
    ensures |d| == |counts|
    decreases counts
  {
    if counts == [] then [] else [acc] + DisplacementsFrom(acc + counts[0], counts[1..])
  }

  /** The displacements mpi4py derives for `None`, starting at offset 0. */
  function Displacements(counts: seq<int>): (d: seq<int>)
    ensures |d| == |counts|
  {
    DisplacementsFrom(0, counts)
  }

  /** Displacement k is the starting offset plus the counts before k. */
  lemma {:induction false} DisplacementsFromAt(acc: int, counts: seq<int>, k: nat)
    requires k < |counts|
    ensures DisplacementsFrom(acc, counts)[k] == acc + Sum(counts[..k])
    decreases counts
  {
    if k > 0 {
      DisplacementsFromAt(acc + counts[0], counts[1..], k - 1);
      assert counts[..k] == [counts[0]] + counts[1..][..k - 1];
      SumCons(counts[0], counts[1..][..k - 1]);
    }
  }

  /** Rank k's displacement is the total count of the ranks before it. */
  lemma DisplacementsArePrefixSums(counts: seq<int>, k: nat)
    requires k < |counts|
    ensures Displacements(counts)[k] == Sum(counts[..k])
  {
    DisplacementsFromAt(0, counts, k);
  }

  /**
   * The root's receive buffer after `Gatherv(sends, [recv, (counts, None)])`:
   * the contributions back to back in rank order, then whatever the buffer
   * held beyond them.
   */
  function Gatherv(recv: seq<int>, counts: seq<int>, sends: seq<seq<int>>): (r: Result<seq<int>, GatherError>)
    ensures r.Ok? <==> |counts| == |sends| && (forall k :: 0 <= k < |sends| ==> counts[k] == |sends[k]|) && Sum(counts) <= |recv|
    ensures r.Ok? ==> |r.value| == |recv|
  {
    if |counts| != |sends| then Err(WrongRankCount)
    else if exists k :: 0 <= k < |sends| && counts[k] != |sends[k]| then Err(CountMismatch)
    else if Sum(counts) > |recv| then Err(BufferOverflow)
    else
      FlattenLength(sends, counts);
      Ok(Flatten(sends) + recv[Sum(counts)..])
  }

  /**
   * What `Gatherv` promises: element j of rank k's contribution lands at the
   * rank's displacement plus j, and the buffer past the last contribution is untouched.
   */
  lemma GathervPlacesContributions(recv: seq<int>, counts: seq<int>, sends: seq<seq<int>>, k: nat, j: nat)
    requires Gatherv(recv, counts, sends).Ok?
    requires k < |sends| && j < counts[k]
    ensures var d := Displacements(counts)[k];
      0 <= d && d + j < |recv| && Gatherv(recv, counts, sends).value[d + j] == sends[k][j]
  {
    DisplacementsArePrefixSums(counts, k);
    SumPrefixMonotone(counts, k, |counts|);
    assert sends == sends[..k] + [sends[k]] + sends[k + 1..];
    FlattenAppend(sends[..k] + [sends[k]], sends[k + 1..]);
    FlattenAppend(sends[..k], [sends[k]]);
    assert Flatten([sends[k]]) == sends[k] by {
      assert [sends[k]][..0] == [];
    }
    FlattenLength(sends[..k], counts[..k]);
    FlattenLength(sends, counts);
  }

  /** The buffer past the last contribution keeps its old contents. */
  lemma GathervKeepsTail(recv: seq<int>, counts: seq<int>, sends: seq<seq<int>>, i: nat)
    requires Gatherv(recv, counts, sends).Ok?
    requires Sum(counts) <= i < |recv|
    ensures Gatherv(recv, counts, sends).value[i] == recv[i]
  {
    FlattenLength(sends, counts);
  }

  /** `Gatherv` into the root's buffer `c`: check the counts, then copy each contribution to its displacement. */
  method GathervInto(c: array<int>, counts: seq<int>, sends: seq<seq<int>>) returns (r: Result<(), GatherError>)
    modifies c
    ensures r.Ok? <==> Gatherv(old(c[..]), counts, sends).Ok?
    ensures r.Ok? ==> c[..] == Gatherv(old(c[..]), counts, sends).value
    ensures r.Err? ==> r.error == Gatherv(old(c[..]), counts, sends).error && c[..] == old(c[..])
  {
    if |counts| != |sends| {
      return Err(WrongRankCount);
    }
    var matches, total := CheckCounts(counts, sends);
    if !matches {
      return Err(CountMismatch);
    }
    if total > c.Length {
      return Err(BufferOverflow);
    }
    assert counts[..|counts|] == counts;
    SumPrefixMonotone(counts, 0, |counts|);
    CopyContributions(c, counts, sends, total);
    return Ok(());
  }

  /** Copies the contributions back to back, in rank order, to the front of `c`. */
  method CopyContributions(c: array<int>, counts: seq<int>, sends: seq<seq<int>>, total: int)
    requires |counts| == |sends| && forall k :: 0 <= k < |sends| ==> counts[k] == |sends[k]|
    requires 0 <= total == Sum(counts) <= c.Length
    modifies c
    ensures c[..] == Flatten(sends) + old(c[..])[total..]
  {
    assert counts[..|counts|] == counts;
    SumPrefixMonotone(counts, 0, |counts|);
    ghost var before := c[..];
    var off := 0;
    for k := 0 to |sends|
      invariant 0 <= off == Sum(counts[..k]) <= total <= c.Length
      invariant c.Length == |before|
      invariant c[..off] == Flatten(sends[..k])
      invariant c[off..] == before[off..]
    {
      assert counts[..k + 1][..k] == counts[..k];
      SumPrefixMonotone(counts, k + 1, |sends|);
      var next := off + |sends[k]|;
      assert next <= total;
      assert c[next..] == before[next..] by {
        assert c[next..] == c[off..][|sends[k]|..];
        assert before[next..] == before[off..][|sends[k]|..];
      }
      CopyAt(c, off, sends[k]);
      assert c[..next] == c[..off] + c[off..next];
      assert sends[..k + 1][..k] == sends[..k];
      assert Flatten(sends[..k + 1]) == Flatten(sends[..k]) + sends[k];
      off := next;
    }
    assert sends[..|sends|] == sends;
    assert c[..] == c[..off] + c[off..];
  }

  /** Checks that each rank sends as many elements as the root expects from it, and totals the counts. */
  method CheckCounts(counts: seq<int>, sends: seq<seq<int>>) returns (matches: bool, total: int)
    requires |counts| == |sends|
    ensures matches <==> forall k :: 0 <= k < |sends| ==> counts[k] == |sends[k]|
    ensures matches ==> total == Sum(counts)
  {
    total := 0;
    for k := 0 to |sends|
      invariant total == Sum(counts[..k])
      invariant forall q :: 0 <= q < k ==> counts[q] == |sends[q]|
    {
      if counts[k] != |sends[k]| {
        return false, total;
      }
      assert counts[..k + 1][..k] == counts[..k];
      total := total + counts[k];
    }
    assert counts[..|sends|] == counts;
    return true, total;
  }

  /** Copies one contribution `s` into `c` at displacement `off`, leaving the rest of `c` as it was. */
  method CopyAt(c: array<int>, off: nat, s: seq<int>)
    requires off + |s| <= c.Length
    modifies c
    ensures c[..off] == old(c[..off])
    ensures c[off..off + |s|] == s
    ensures c[off + |s|..] == old(c[off + |s|..])
  {
    for j := 0 to |s|
      invariant forall q :: 0 <= q < c.Length ==> c[q] == if off <= q < off + j then s[q - off] else old(c[q])
    {
      c[off + j] := s[j];
    }
  }
}
