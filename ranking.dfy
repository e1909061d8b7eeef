/** sort_values(score, ascending=False).head(3): the rows ranked by
    descending score and the first k taken. Rows are named by their index in
    the table. Equal scores are ranked by row index, earlier first; that tie
    order is a choice of this model (see TopKStableTies). */
module Ranking {

  /** Row a is ranked ahead of row b: a higher score, or the same score and
      an earlier row. */
  predicate Before(scores: seq<real>, a: nat, b: nat)
    requires a < |scores| && b < |scores|
  {
    scores[a] > scores[b] || (scores[a] == scores[b] && a < b)
  }

  /** Every entry of order names a row of the table. */
  predicate InRange(scores: seq<real>, order: seq<nat>) {
    forall p :: 0 <= p < |order| ==> order[p] < |scores|
  }

  /** Every entry is ranked ahead of every later entry. */
  predicate RankedBy(scores: seq<real>, order: seq<nat>)
    requires InRange(scores, order)
  {
    forall p, q :: 0 <= p < q < |order| ==> Before(scores, order[p], order[q])
  }

  /** Row x put into a ranked order, after every row ranked ahead of it. */
  function InsertRanked(scores: seq<real>, x: nat, order: seq<nat>): (r: seq<nat>)
    requires x < |scores| && x !in order
    requires InRange(scores, order) && RankedBy(scores, order)
    ensures InRange(scores, r) && RankedBy(scores, r)
    ensures |r| == |order| + 1
    ensures forall y :: y in r <==> y == x || y in order
  {
    if order == [] || Before(scores, x, order[0]) then
      [x] + order
    else
      var rest := InsertRanked(scores, x, order[1..]);
      assert forall y :: y in order[1..] ==> y in order;
      assert forall q :: 0 <= q < |rest| ==> Before(scores, order[0], rest[q]) by {
        forall q | 0 <= q < |rest| ensures Before(scores, order[0], rest[q]) {
          assert rest[q] in rest;
          if rest[q] != x {
            var p :| 0 <= p < |order[1..]| && order[1..][p] == rest[q];
            assert order[p + 1] == rest[q];
          }
        }
      }
      [order[0]] + rest
  }

  /** The rows 0 .. m-1 in ranking order, each inserted in turn. */
  function RankFirst(scores: seq<real>, m: nat): (order: seq<nat>)
    requires m <= |scores|
    ensures InRange(scores, order) && RankedBy(scores, order)
    ensures |order| == m
    ensures forall y: nat :: y in order <==> y < m
  {
    if m == 0 then [] else InsertRanked(scores, m - 1, RankFirst(scores, m - 1))
  }

  /** Every row, in ranking order. */
  function RankOrder(scores: seq<real>): (order: seq<nat>)
    ensures InRange(scores, order) && RankedBy(scores, order)
    ensures |order| == |scores|
    ensures forall y: nat :: y in order <==> y < |scores|
  {
    RankFirst(scores, |scores|)
  }

  function MinNat(a: nat, b: nat): nat {
    if a < b then a else b
  }

  /** The first k rows of the ranking (all of them when there are fewer). */
  function TopK(scores: seq<real>, k: nat): (top: seq<nat>)
    ensures |top| == MinNat(k, |scores|)
    ensures InRange(scores, top)
  {
    RankOrder(scores)[..MinNat(k, |scores|)]
  }

  /** What any top-k selection must be, whatever the tie order: min(k, n)
      distinct rows of the table, in non-increasing score order, and no row
      left out scores above any row taken. */
  predicate IsTopSelection(scores: seq<real>, picked: seq<nat>, k: nat) {
    && |picked| == MinNat(k, |scores|)
    && InRange(scores, picked)
    && (forall p, q :: 0 <= p < q < |picked| ==> picked[p] != picked[q])
    && (forall p, q :: 0 <= p < q < |picked| ==> scores[picked[p]] >= scores[picked[q]])
    && (forall i, p :: 0 <= i < |scores| && i !in picked && 0 <= p < |picked| ==> scores[i] <= scores[picked[p]])
  }

  /** Row r of the table sits at some position of the ranking. */
  lemma PositionOf(scores: seq<real>, r: nat) returns (q: nat)
    requires r < |scores|
    ensures q < |RankOrder(scores)| && RankOrder(scores)[q] == r
  {
    var order := RankOrder(scores);
    assert r in order;
    q :| 0 <= q < |order| && order[q] == r;
  }

  /** TopK is a top selection. */
  lemma TopKIsTopSelection(scores: seq<real>, k: nat)
    ensures IsTopSelection(scores, TopK(scores, k), k)
  {
    var order, top := RankOrder(scores), TopK(scores, k);
    forall i, p | 0 <= i < |scores| && i !in top && 0 <= p < |top|
      ensures scores[i] <= scores[top[p]]
    {
      var q := PositionOf(scores, i);
      assert Before(scores, order[p], order[q]);
    }
  }

  /** Asking for at least as many rows as there are takes every row. */
  lemma TopKTakesAllWhenFew(scores: seq<real>, k: nat)
    requires k >= |scores|
    ensures forall i :: 0 <= i < |scores| ==> i in TopK(scores, k)
  {
    assert TopK(scores, k) == RankOrder(scores);
  }

  /** The tie order this model fixes, which pandas' default sort does not
      promise: among equal scores the earlier row comes first, both inside
      the selection and against the rows left out. */
  lemma TopKStableTies(scores: seq<real>, k: nat)
    ensures forall p, q ::
      (0 <= p < q < |TopK(scores, k)| && scores[TopK(scores, k)[p]] == scores[TopK(scores, k)[q]])
      ==> TopK(scores, k)[p] < TopK(scores, k)[q]
    ensures forall i, p ::
      (0 <= i < |scores| && i !in TopK(scores, k) && 0 <= p < |TopK(scores, k)|
       && scores[i] == scores[TopK(scores, k)[p]])
      ==> TopK(scores, k)[p] < i
  {
    var order, top := RankOrder(scores), TopK(scores, k);
    forall i, p | 0 <= i < |scores| && i !in top && 0 <= p < |top| && scores[i] == scores[top[p]]
      ensures top[p] < i
    {
      var q := PositionOf(scores, i);
      assert Before(scores, order[p], order[q]);
    }
  }
}
