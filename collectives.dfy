/** The value semantics of the two MPI collectives the workers use each step,
    over the sequence of per-rank values (index = rank, rank 0 = root):
    `MPI_Bcast` from rank 0 (section 5.4 of the MPI 3.1 standard) and
    `MPI_Reduce` with `MPI_SUM` to rank 0 (section 5.9.1 of MPI 3.1). */
module Collectives {

  /** `MPI_Bcast(buf, ..., 0, ...)`: every rank's buffer receives rank 0's value. */
  function Broadcast<T>(values: seq<T>): (received: seq<T>)
    requires |values| > 0
    ensures |received| == |values|
    ensures forall r :: 0 <= r < |received| ==> received[r] == values[0]
  {
    seq(|values|, r requires 0 <= r < |values| => values[0])
  }

  /** After a broadcast all ranks agree, the root keeps its own value, and a
      second broadcast changes nothing. */
  lemma BroadcastAgrees<T>(values: seq<T>)
    requires |values| > 0
    ensures forall r, q :: 0 <= r < q < |values| ==> Broadcast(values)[r] == Broadcast(values)[q]
    ensures Broadcast(values)[0] == values[0]
    ensures Broadcast(Broadcast(values)) == Broadcast(values)
  {
  }

  function Sum(values: seq<int>): int
  {
    if |values| == 0 then 0 else Sum(values[..|values| - 1]) + values[|values| - 1]
  }

  /** A sum of non-negative counts is non-negative and no smaller than any of them. */
  lemma {:induction false} SumOfCounts(values: seq<int>)
    requires forall r :: 0 <= r < |values| ==> values[r] >= 0
    ensures Sum(values) >= 0
    ensures forall r :: 0 <= r < |values| ==> values[r] <= Sum(values)
  {
    if |values| > 0 {
      var front := values[..|values| - 1];
      SumOfCounts(front);
      assert forall r :: 0 <= r < |front| ==> front[r] == values[r];
    }
  }

  /** The sum of counts that are all 0 is 0. */
  lemma {:induction false} SumZero(values: seq<int>)
    requires forall r :: 0 <= r < |values| ==> values[r] == 0
    ensures Sum(values) == 0
  {
    if |values| > 0 {
      var front := values[..|values| - 1];
      assert forall r :: 0 <= r < |front| ==> front[r] == values[r];
      SumZero(front);
    }
  }

  /** `MPI_Reduce(&local, &total, 1, MPI_INT, MPI_SUM, 0, ...)` with every
      rank's `total` initialised to 0: the root receives the sum of all local
      values; the receive buffer of the other ranks is not written, so it
      keeps its 0. */
  function Reduce(local: seq<int>): (totals: seq<int>)
    requires |local| > 0
    ensures |totals| == |local|
    ensures totals[0] == Sum(local)
    ensures forall r :: 1 <= r < |totals| ==> totals[r] == 0
  {
    seq(|local|, r requires 0 <= r < |local| => if r == 0 then Sum(local) else 0)
  }
}
