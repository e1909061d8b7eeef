/** Field cleaning shared by the pipelines: the medal lookup, the median
    fill of a numeric column, and the default tag text. */
module Cleaning {
  import opened Options
  import opened Stats

  /** The medal lookup table of the Kaggle pipeline. */
  const MedalTable: map<string, real> :=
    map["Gold" := 5.0, "Silver" := 3.0, "Bronze" := 1.0, "No Medal" := 0.0]

  /** Medals.map(table).fillna(0): a label found in the table gives its
      points; an unknown label or a missing cell gives 0. The lookup is exact
      (case and spaces matter). */
  function MedalPoints(medal: Option<string>): (points: real)
    ensures points in {0.0, 1.0, 3.0, 5.0}
    ensures points > 0.0 <==> medal in {Some("Gold"), Some("Silver"), Some("Bronze")}
  {
    if medal.Some? && medal.value in MedalTable then MedalTable[medal.value] else 0.0
  }

  /** Gold outranks Silver outranks Bronze outranks everything else, and an
      unknown or missing medal counts as no medal. */
  lemma MedalPointsOrder(other: string)
    requires other !in MedalTable
    ensures MedalPoints(Some("Gold")) > MedalPoints(Some("Silver")) > MedalPoints(Some("Bronze"))
    ensures MedalPoints(Some("Bronze")) > MedalPoints(Some("No Medal"))
    ensures MedalPoints(Some(other)) == MedalPoints(None) == MedalPoints(Some("No Medal")) == 0.0
  {
  }

  /** The present values of a column, in order (what pandas' median sees). */
  function Present(col: seq<Option<real>>): (vs: seq<real>)
    ensures |vs| <= |col|
    ensures forall i :: 0 <= i < |col| && col[i].Some? ==> col[i].value in vs
    ensures forall v :: v in vs ==> Some(v) in col
  {
    if col == [] then []
    else
      var rest := Present(col[1..]);
      assert forall v :: v in rest ==> Some(v) in col[1..];
      if col[0].Some? then [col[0].value] + rest else rest
  }

  /** Every position moved one place on. */
  function Shifted(idx: seq<nat>): (r: seq<nat>)
    ensures |r| == |idx| && forall k :: 0 <= k < |r| ==> r[k] == idx[k] + 1
  {
    seq(|idx|, k requires 0 <= k < |idx| => idx[k] + 1)
  }

  /** The positions of the present cells, one per present cell, in column
      order. */
  function PresentPositions(col: seq<Option<real>>): (idx: seq<nat>)
    ensures |idx| == |Present(col)|
    ensures forall k :: 0 <= k < |idx| ==> idx[k] < |col|
  {
    if col == [] then []
    else
      var shifted := Shifted(PresentPositions(col[1..]));
      if col[0].Some? then [0] + shifted else shifted
  }

  /** Each listed position holds the value Present lists at the same place:
      Present keeps a value once per cell that holds it, duplicates
      included. */
  lemma {:induction false} PresentPositionsHoldValues(col: seq<Option<real>>)
    ensures HoldValues(col)
  {
    if col != [] {
      PresentPositionsHoldValues(col[1..]);
      if col[0].Some? {
        HoldValuesPresentHead(col);
      } else {
        HoldValuesMissingHead(col);
      }
    }
  }

  predicate HoldValues(col: seq<Option<real>>) {
    forall k :: 0 <= k < |PresentPositions(col)| ==>
      col[PresentPositions(col)[k]] == Some(Present(col)[k])
  }

  lemma HoldValuesPresentHead(col: seq<Option<real>>)
    requires col != [] && col[0].Some? && HoldValues(col[1..])
    ensures HoldValues(col)
  {
    var tail := col[1..];
    var rest, vs := PresentPositions(tail), Present(tail);
    var idx, ps := PresentPositions(col), Present(col);
    var shifted := Shifted(rest);
    assert idx == [0] + shifted && ps == [col[0].value] + vs;
    forall k | 1 <= k < |idx| ensures col[idx[k]] == Some(ps[k]) {
      var j := rest[k - 1];
      assert j < |tail| && tail[j] == Some(vs[k - 1]);
      assert idx[k] == shifted[k - 1] == j + 1;
      assert ps[k] == vs[k - 1];
      assert col[j + 1] == tail[j];
    }
  }

  lemma HoldValuesMissingHead(col: seq<Option<real>>)
    requires col != [] && col[0].None? && HoldValues(col[1..])
    ensures HoldValues(col)
  {
    var tail := col[1..];
    var rest, vs := PresentPositions(tail), Present(tail);
    var idx, ps := PresentPositions(col), Present(col);
    assert idx == Shifted(rest) && ps == vs;
    forall k | 0 <= k < |idx| ensures col[idx[k]] == Some(ps[k]) {
      assert col[idx[k]] == tail[rest[k]];
    }
  }

  /** The positions rise strictly, so Present follows column order. */
  lemma {:induction false} PresentPositionsAscend(col: seq<Option<real>>)
    ensures forall k, l :: 0 <= k < l < |PresentPositions(col)| ==>
      PresentPositions(col)[k] < PresentPositions(col)[l]
  {
    if col != [] {
      var tail := col[1..];
      PresentPositionsAscend(tail);
      var rest := PresentPositions(tail);
      var idx := PresentPositions(col);
      var shifted := Shifted(rest);
      forall k, l | 0 <= k < l < |idx| ensures idx[k] < idx[l] {
        if col[0].Some? {
          assert idx == [0] + shifted;
          assert idx[l] == rest[l - 1] + 1;
          if k > 0 {
            assert idx[k] == rest[k - 1] + 1;
          }
        } else {
          assert idx == shifted;
        }
      }
    }
  }

  /** Every present cell has its position listed: Present misses none. */
  lemma {:induction false} PresentPositionsCover(col: seq<Option<real>>)
    ensures forall i :: 0 <= i < |col| && col[i].Some? ==> i in PresentPositions(col)
  {
    if col != [] {
      var tail := col[1..];
      PresentPositionsCover(tail);
      var rest := PresentPositions(tail);
      var idx := PresentPositions(col);
      var shifted := Shifted(rest);
      forall i | 0 <= i < |col| && col[i].Some? ensures i in idx {
        if i > 0 {
          assert tail[i - 1] == col[i];
          var k :| 0 <= k < |rest| && rest[k] == i - 1;
          assert shifted[k] == i;
        }
        if col[0].Some? {
          assert idx == [0] + shifted;
        } else {
          assert idx == shifted;
        }
      }
    }
  }

  /** col.fillna(col.median()): every missing cell takes the median of the
      present values; when no value is present the median is missing too and
      the column stays as it was. */
  function ImputeMedian(col: seq<Option<real>>): (r: seq<Option<real>>)
    ensures |r| == |col|
    ensures forall i :: 0 <= i < |col| && col[i].Some? ==> r[i] == col[i]
    ensures Present(col) == [] ==> r == col
    ensures Present(col) != [] ==> forall i :: 0 <= i < |r| ==>
      r[i].Some? && Min(Present(col)) <= r[i].value <= Max(Present(col))
  {
    var m := Median(Present(col));
    MedianWithinRange(Present(col));
    if m.None? then col
    else seq(|col|, i requires 0 <= i < |col| => Some(col[i].GetOr(m.value)))
  }

  /** Once some value is present, the filled column has no gap left and the
      filled cells all hold one value, the median. */
  lemma ImputedCellsShareTheMedian(col: seq<Option<real>>, i: nat, j: nat)
    requires Present(col) != []
    requires i < |col| && j < |col| && col[i].None? && col[j].None?
    ensures ImputeMedian(col)[i] == ImputeMedian(col)[j] == Median(Present(col))
  {
    MedianWithinRange(Present(col));
  }

  /** The text a missing tag cell is filled with. */
  const DefaultTags: string := "general"

  /** top_tags.fillna('general') */
  function FillTags(tags: Option<string>): (t: string)
    ensures tags.Some? ==> t == tags.value
    ensures tags.None? ==> t == DefaultTags
  {
    tags.GetOr(DefaultTags)
  }
}
