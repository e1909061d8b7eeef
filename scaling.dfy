/** MinMaxScaler().fit_transform on one column: every value is moved and
    stretched so that the column's minimum becomes 0 and its maximum 1. A
    column whose values are all equal has a zero range; the scaler divides by
    1 instead, so every value of such a column becomes 0. */
module Scaling {
  import opened Stats

  /** The divisor: the range hi - lo, or 1 when that range is zero. */
  function Spread(lo: real, hi: real): (d: real)
    ensures d > 0.0 || lo > hi
  {
    if hi == lo then 1.0 else hi - lo
  }

  /** One value moved by the column's minimum lo and divided by the spread. */
  function ScaleValue(x: real, lo: real, hi: real): real
    requires lo <= hi
  {
    (x - lo) / Spread(lo, hi)
  }

  /** (x - min) / spread for every value of the column. */
  function MinMaxScale(col: seq<real>): (r: seq<real>)
    ensures |r| == |col|
  {
    if col == [] then []
    else seq(|col|, i requires 0 <= i < |col| => ScaleValue(col[i], Min(col), Max(col)))
  }

  /** Division by a positive number keeps order both ways and is undone by
      multiplying back. */
  lemma DivideByPositive(a: real, b: real, d: real)
    requires d > 0.0
    ensures (a / d) * d == a
    ensures a <= b <==> a / d <= b / d
  {
    var p, q := a / d, b / d;
    assert p * d == a && q * d == b;
    assert (q - p) * d == b - a;
    if a <= b {
      assert q - p >= 0.0;
    } else {
      assert q - p < 0.0;
    }
  }

  /** The value-level facts behind the column lemmas below: a value in
      [lo, hi] scales into [0, 1], lo goes to 0, hi to 1 when they differ,
      and order is kept. */
  lemma ScaleValueFacts(x: real, y: real, lo: real, hi: real)
    requires lo <= x <= hi && lo <= y <= hi
    ensures 0.0 <= ScaleValue(x, lo, hi) <= 1.0
    ensures x == lo ==> ScaleValue(x, lo, hi) == 0.0
    ensures x == hi && lo != hi ==> ScaleValue(x, lo, hi) == 1.0
    ensures lo == hi ==> ScaleValue(x, lo, hi) == 0.0
    ensures x <= y ==> ScaleValue(x, lo, hi) <= ScaleValue(y, lo, hi)
    ensures lo != hi ==> (x <= y <==> ScaleValue(x, lo, hi) <= ScaleValue(y, lo, hi))
  {
    var d := Spread(lo, hi);
    DivideByPositive(x - lo, y - lo, d);
    DivideByPositive(0.0, x - lo, d);
    DivideByPositive(x - lo, d, d);
    DivideByPositive(d, x - lo, d);
    assert 0.0 / d == 0.0;
    assert d / d == 1.0;
  }

  /** The inverse transform: a scaled value s taken back to the column's
      units, lo + s * (hi - lo). */
  function Unscale(s: real, lo: real, hi: real): real {
    lo + s * (hi - lo)
  }

  /** Unscale undoes ScaleValue for a value in [lo, hi]. */
  lemma ScaleValueInverse(x: real, lo: real, hi: real, s: real)
    requires lo <= x <= hi && s == ScaleValue(x, lo, hi)
    ensures Unscale(s, lo, hi) == x
  {
    var d := Spread(lo, hi);
    DivideByPositive(x - lo, x - lo, d);
    assert s * d == x - lo;
    if lo == hi {
      assert x - lo == 0.0;
    }
    assert lo + s * (hi - lo) == x;
  }

  /** The scaled value at one index, with the facts above for it. */
  lemma ScaledAt(col: seq<real>, i: nat, j: nat)
    requires i < |col| && j < |col|
    ensures MinMaxScale(col)[i] == ScaleValue(col[i], Min(col), Max(col))
    ensures 0.0 <= MinMaxScale(col)[i] <= 1.0
    ensures col[i] <= col[j] ==> MinMaxScale(col)[i] <= MinMaxScale(col)[j]
  {
    ScaleValueFacts(col[i], col[j], Min(col), Max(col));
  }

  /** Every scaled value lies in [0, 1]. */
  lemma MinMaxWithinUnit(col: seq<real>)
    ensures forall i :: 0 <= i < |col| ==> 0.0 <= MinMaxScale(col)[i] <= 1.0
  {
    forall i | 0 <= i < |col| ensures 0.0 <= MinMaxScale(col)[i] <= 1.0 {
      ScaledAt(col, i, i);
    }
  }

  /** When the column is not constant, its minimum goes to 0 and its maximum
      to 1, and both are reached. */
  lemma MinMaxEndpoints(col: seq<real>)
    requires |col| > 0 && Min(col) != Max(col)
    ensures forall i :: 0 <= i < |col| && col[i] == Min(col) ==> MinMaxScale(col)[i] == 0.0
    ensures forall i :: 0 <= i < |col| && col[i] == Max(col) ==> MinMaxScale(col)[i] == 1.0
    ensures exists i :: 0 <= i < |col| && MinMaxScale(col)[i] == 0.0
    ensures exists i :: 0 <= i < |col| && MinMaxScale(col)[i] == 1.0
  {
    var lo, hi := Min(col), Max(col);
    forall i | 0 <= i < |col| ensures MinMaxScale(col)[i] == ScaleValue(col[i], lo, hi) {
      ScaledAt(col, i, i);
      ScaleValueFacts(col[i], col[i], lo, hi);
    }
    forall i | 0 <= i < |col| && col[i] == lo ensures MinMaxScale(col)[i] == 0.0 {
      ScaleValueFacts(col[i], col[i], lo, hi);
    }
    forall i | 0 <= i < |col| && col[i] == hi ensures MinMaxScale(col)[i] == 1.0 {
      ScaleValueFacts(col[i], col[i], lo, hi);
    }
    var a :| 0 <= a < |col| && col[a] == lo;
    var b :| 0 <= b < |col| && col[b] == hi;
    assert MinMaxScale(col)[a] == 0.0;
    assert MinMaxScale(col)[b] == 1.0;
  }

  /** A constant column scales to all zeros (the zero-range fallback). */
  lemma ConstantColumnScalesToZero(col: seq<real>)
    requires forall i :: 0 <= i < |col| ==> col[i] == col[0]
    ensures forall i :: 0 <= i < |col| ==> MinMaxScale(col)[i] == 0.0
  {
    if col != [] {
      var lo, hi := Min(col), Max(col);
      assert lo == hi by {
        var a :| 0 <= a < |col| && col[a] == lo;
        var b :| 0 <= b < |col| && col[b] == hi;
      }
      forall i | 0 <= i < |col| ensures MinMaxScale(col)[i] == 0.0 {
        ScaledAt(col, i, i);
        ScaleValueFacts(col[i], col[i], lo, hi);
      }
    }
  }

  /** Scaling keeps the order of the values, and a column that is not
      constant keeps it in both directions. */
  lemma MinMaxKeepsOrder(col: seq<real>, i: nat, j: nat)
    requires i < |col| && j < |col|
    ensures col[i] <= col[j] ==> MinMaxScale(col)[i] <= MinMaxScale(col)[j]
    ensures Min(col) != Max(col) ==> (col[i] <= col[j] <==> MinMaxScale(col)[i] <= MinMaxScale(col)[j])
  {
    ScaledAt(col, i, j);
    ScaledAt(col, j, i);
    ScaleValueFacts(col[i], col[j], Min(col), Max(col));
  }

  /** The scaling is undone by the inverse transform: no value is lost. */
  lemma MinMaxInverse(col: seq<real>, i: nat)
    requires i < |col|
    ensures Unscale(MinMaxScale(col)[i], Min(col), Max(col)) == col[i]
  {
    var lo, hi, s := Min(col), Max(col), MinMaxScale(col)[i];
    assert lo <= col[i] <= hi;
    assert s == ScaleValue(col[i], lo, hi);
    ScaleValueInverse(col[i], lo, hi, s);
  }

  /** g applied to every value (np.log1p over a column). */
  function MapColumn(g: real -> real, col: seq<real>): (r: seq<real>)
    ensures |r| == |col|
    ensures forall i :: 0 <= i < |col| ==> r[i] == g(col[i])
  {
    seq(|col|, i requires 0 <= i < |col| => g(col[i]))
  }

  /** A non-decreasing transform applied before scaling (the log columns)
      keeps the order of the raw values. */
  lemma MonotoneThenScale(g: real -> real, col: seq<real>, i: nat, j: nat)
    requires forall x: real, y: real :: x <= y ==> g(x) <= g(y)
    requires i < |col| && j < |col| && col[i] <= col[j]
    ensures MinMaxScale(MapColumn(g, col))[i] <= MinMaxScale(MapColumn(g, col))[j]
  {
    MinMaxKeepsOrder(MapColumn(g, col), i, j);
  }
}
