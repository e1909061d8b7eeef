/** Winsorizing a column at a limit (the StackOverflow pipeline's cap at the
    95th percentile): np.where(col > limit, limit, col). */
module Outliers {
  import opened Stats

  function Capped(x: real, limit: real): real {
    if x > limit then limit else x
  }

  /** Every value is replaced by the smaller of itself and the limit. */
  function Cap(col: seq<real>, limit: real): (r: seq<real>)
    ensures |r| == |col|
    ensures forall i :: 0 <= i < |col| ==> r[i] == Capped(col[i], limit)
  {
    seq(|col|, i requires 0 <= i < |col| => Capped(col[i], limit))
  }

  /** No capped value exceeds the limit, no value grows, and a value at or
      below the limit is kept. */
  lemma CapBounds(col: seq<real>, limit: real, i: nat)
    requires i < |col|
    ensures Cap(col, limit)[i] <= limit
    ensures Cap(col, limit)[i] <= col[i]
    ensures col[i] <= limit ==> Cap(col, limit)[i] == col[i]
    ensures col[i] > limit ==> Cap(col, limit)[i] == limit
  {
  }

  /** Capping keeps the order of the values (ties may be created, never
      inverted). */
  lemma CapKeepsOrder(col: seq<real>, limit: real, i: nat, j: nat)
    requires i < |col| && j < |col| && col[i] <= col[j]
    ensures Cap(col, limit)[i] <= Cap(col, limit)[j]
  {
  }

  /** Capping twice at the same limit is capping once. */
  lemma CapIdempotent(col: seq<real>, limit: real)
    ensures Cap(Cap(col, limit), limit) == Cap(col, limit)
  {
  }

  /** A limit at or above the column's maximum leaves the column alone. */
  lemma CapAboveMaximum(col: seq<real>, limit: real)
    requires |col| > 0 && Max(col) <= limit
    ensures Cap(col, limit) == col
  {
  }
}
