/**
 * The work partitioner of `convolute_loop`: how thread `rank` of `total`
 * derives its half-open row range `[local_start, local_end)`.
 */
module Partition {
  import opened Arith

  /** `thread_count` in `convolute_bak`. */
  const ThreadCount: nat := 50

  /** A half-open row range `[start, end)`. */
  datatype RowRange = RowRange(start: int, end: int)

  predicate Contains(r: RowRange, row: int)
  {
    r.start <= row < r.end
  }

  /** `rows_per_thread = imgR / total_threads`: the most rows every thread can be given. */
  function RowsPerThread(height: nat, total: nat): (q: nat)
    requires 1 <= total
    ensures q * total <= height < (q + 1) * total
  {
    DivMod(height, total);
    MulSucc(height / total, total);
    height / total
  }

  /**
   * The rows of thread `rank`: `[rank * q, (rank + 1) * q)` with
   * `q = height / total`, except that the last thread runs to `height`.
   */
  function RankRange(height: nat, total: nat, rank: nat): (r: RowRange)
    requires 1 <= total && rank < total
    ensures 0 <= r.start <= r.end <= height
    ensures rank == total - 1 ==> r.end == height
  {
    var q := RowsPerThread(height, total);
    MulNat(rank, q);
    MulLeft(rank + 1, total, q);
    assert total * q <= height;
    var localStart := rank * q;
    var localEnd := if rank == total - 1 then height else (rank + 1) * q;
    RowRange(localStart, localEnd)
  }

  /**
   * The ranges are laid end to end from row 0: the first starts at 0, each
   * ends where the next begins, and every thread but the last gets `q` rows.
   */
  lemma RanksContiguous(height: nat, total: nat, rank: nat)
    requires 1 <= total && rank < total
    ensures RankRange(height, total, 0).start == 0
    ensures rank + 1 < total ==> RankRange(height, total, rank).end == RankRange(height, total, rank + 1).start
    ensures rank + 1 < total ==> RankRange(height, total, rank).end - RankRange(height, total, rank).start == RowsPerThread(height, total)
  {
    MulSucc(rank, RowsPerThread(height, total));
  }

  /** The rows of a range, in increasing order. */
  function Rows(r: RowRange): (s: seq<int>)
    requires r.start <= r.end
    ensures forall row :: row in s <==> Contains(r, row)
  {
    var s := Interval(r.start, r.end);
    assert forall row :: Contains(r, row) ==> s[row - r.start] == row;
    s
  }

  /** The rows of threads `0 .. n-1`: each thread's rows in order, thread after thread. */
  function RowsOfRanks(height: nat, total: nat, n: nat): seq<int>
    requires 1 <= total && n <= total
  {
    if n == 0 then [] else RowsOfRanks(height, total, n - 1) + Rows(RankRange(height, total, n - 1))
  }

  /** The first `n` threads' rows, in rank order, are the rows from 0 up to where thread `n-1` stops. */
  lemma {:induction false} RowsOfRanksContiguous(height: nat, total: nat, n: nat)
    requires 1 <= total && 1 <= n <= total
    ensures RowsOfRanks(height, total, n) == Interval(0, RankRange(height, total, n - 1).end)
  {
    if n == 1 {
      RanksContiguous(height, total, 0);
    } else {
      RowsOfRanksContiguous(height, total, n - 1);
      RanksContiguous(height, total, n - 2);
      IntervalAppend(0, RankRange(height, total, n - 2).end, RankRange(height, total, n - 1).end);
    }
  }

  /**
   * Taken in rank order, the threads' ranges list every row of the image
   * once, in increasing order: no row is missed and none is repeated.
   */
  lemma RowsOfAllRanks(height: nat, total: nat)
    requires 1 <= total
    ensures RowsOfRanks(height, total, total) == Interval(0, height)
  {
    RowsOfRanksContiguous(height, total, total);
  }

  /** The thread whose range holds `row`. */
  function Owner(height: nat, total: nat, row: nat): (rank: nat)
    requires 1 <= total
    ensures rank < total
  {
    var q := RowsPerThread(height, total);
    if q == 0 || row / q >= total - 1 then total - 1 else row / q
  }

  /** A row of the image lies in the range of a thread exactly when that thread is the row's owner. */
  lemma ContainsIffOwner(height: nat, total: nat, rank: nat, row: nat)
    requires 1 <= total && rank < total && row < height
    ensures Contains(RankRange(height, total, rank), row) <==> rank == Owner(height, total, row)
  {
    var q := RowsPerThread(height, total);
    if q > 0 {
      DivLowerBound(row, q, rank);
      DivLowerBound(row, q, rank + 1);
    }
  }

  /**
   * Coverage: every row of the image belongs to some thread's range, no row
   * belongs to two, and no range reaches outside the image.
   */
  lemma PartitionExact(height: nat, total: nat)
    requires 1 <= total
    ensures forall row :: 0 <= row < height ==> Contains(RankRange(height, total, Owner(height, total, row)), row)
    ensures forall r1, r2, row ::
      (0 <= r1 < total && 0 <= r2 < total && 0 <= row < height &&
       Contains(RankRange(height, total, r1), row) && Contains(RankRange(height, total, r2), row)) ==> r1 == r2
    ensures forall rank, row :: 0 <= rank < total && Contains(RankRange(height, total, rank), row) ==> 0 <= row < height
  {
    forall row | 0 <= row < height
      ensures Contains(RankRange(height, total, Owner(height, total, row)), row)
    {
      ContainsIffOwner(height, total, Owner(height, total, row), row);
    }
    forall r1, r2, row | 0 <= r1 < total && 0 <= r2 < total && 0 <= row < height &&
      Contains(RankRange(height, total, r1), row) && Contains(RankRange(height, total, r2), row)
      ensures r1 == r2
    {
      ContainsIffOwner(height, total, r1, row);
      ContainsIffOwner(height, total, r2, row);
    }
  }

  /**
   * More threads than rows: `q` is 0, so every thread but the last gets the
   * empty range `[0, 0)` and the last one gets every row.
   */
  lemma MoreThreadsThanRows(height: nat, total: nat, rank: nat)
    requires height < total && rank < total
    ensures RowsPerThread(height, total) == 0
    ensures rank < total - 1 ==> RankRange(height, total, rank) == RowRange(0, 0)
    ensures RankRange(height, total, total - 1) == RowRange(0, height)
  {
    DivModUnique(height, total, 0, height);
  }
}
