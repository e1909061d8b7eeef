/** Column statistics over real numbers: sum, minimum, maximum and the
    median pandas' Series.median() computes over the present values. */
module Stats {
  import opened Options

  function Sum(xs: seq<real>): real {
    if xs == [] then 0.0 else xs[0] + Sum(xs[1..])
  }

  function Min(xs: seq<real>): (m: real)
    requires |xs| > 0
    ensures m in xs
    ensures forall i :: 0 <= i < |xs| ==> m <= xs[i]
  {
    if |xs| == 1 then xs[0]
    else
      var rest := Min(xs[1..]);
      if xs[0] <= rest then xs[0] else rest
  }

  function Max(xs: seq<real>): (m: real)
    requires |xs| > 0
    ensures m in xs
    ensures forall i :: 0 <= i < |xs| ==> xs[i] <= m
  {
    if |xs| == 1 then xs[0]
    else
      var rest := Max(xs[1..]);
      if xs[0] >= rest then xs[0] else rest
  }

  predicate Sorted(xs: seq<real>) {
    forall i, j :: 0 <= i < j < |xs| ==> xs[i] <= xs[j]
  }

  /** Every value of a multiset built from the tail of a sorted list and a
      value above its head lies at or above that head. */
  lemma InsertedAboveHead(x: real, xs: seq<real>, r: seq<real>)
    requires Sorted(xs) && xs != [] && xs[0] < x
    requires multiset(r) == multiset(xs[1..]) + multiset{x}
    ensures forall k :: 0 <= k < |r| ==> xs[0] <= r[k]
  {
    var tail := xs[1..];
    forall k | 0 <= k < |r| ensures xs[0] <= r[k] {
      assert r[k] in multiset(r);
      if r[k] != x {
        assert r[k] in multiset(tail);
        var j :| 0 <= j < |tail| && tail[j] == r[k];
        assert tail[j] == xs[j + 1];
      }
    }
  }

  /** Inserting into a sorted list keeps it sorted and adds exactly x. */
  function Insert(x: real, xs: seq<real>): (r: seq<real>)
    requires Sorted(xs)
    ensures Sorted(r)
    ensures |r| == |xs| + 1
    ensures multiset(r) == multiset(xs) + multiset{x}
  {
    if xs == [] || x <= xs[0] then [x] + xs
    else
      assert xs == [xs[0]] + xs[1..];
      var r' := Insert(x, xs[1..]);
      InsertedAboveHead(x, xs, r');
      [xs[0]] + r'
  }

  /** The values in ascending order. */
  function SortAscending(xs: seq<real>): (r: seq<real>)
    ensures Sorted(r)
    ensures |r| == |xs|
    ensures multiset(r) == multiset(xs)
  {
    if xs == [] then []
    else
      assert xs == [xs[0]] + xs[1..];
      Insert(xs[0], SortAscending(xs[1..]))
  }

  /** The middle value of the sorted list, or the mean of the two middle
      values when there is an even number; None for no values (pandas
      returns NaN). */
  function Median(xs: seq<real>): Option<real> {
    var s := SortAscending(xs);
    var n := |s|;
    if n == 0 then None
    else if n % 2 == 1 then Some(s[n / 2])
    else Some((s[n / 2 - 1] + s[n / 2]) / 2.0)
  }

  /** Sorting keeps every value between the minimum and the maximum. */
  lemma SortedWithinRange(xs: seq<real>)
    requires |xs| > 0
    ensures forall k :: 0 <= k < |SortAscending(xs)| ==> Min(xs) <= SortAscending(xs)[k] <= Max(xs)
  {
    var s := SortAscending(xs);
    forall k | 0 <= k < |s| ensures Min(xs) <= s[k] <= Max(xs) {
      assert s[k] in multiset(s);
      assert s[k] in xs;
    }
  }

  /** The median lies between the smallest and the largest value, and it is
      missing only for an empty list. */
  lemma MedianWithinRange(xs: seq<real>)
    ensures Median(xs).Some? <==> |xs| > 0
    ensures |xs| > 0 ==> Min(xs) <= Median(xs).value <= Max(xs)
  {
    if |xs| > 0 {
      var s := SortAscending(xs);
      var n := |s|;
      SortedWithinRange(xs);
      var lo, hi := Min(xs), Max(xs);
      if n % 2 == 0 {
        var a, b := s[n / 2 - 1], s[n / 2];
        assert lo <= a <= hi && lo <= b <= hi;
        assert Median(xs).value == (a + b) / 2.0;
      } else {
        assert Median(xs).value == s[n / 2];
      }
    }
  }

  /** A single value is its own median. */
  lemma MedianOfOne(x: real)
    ensures Median([x]) == Some(x)
  {
    assert SortAscending([x]) == Insert(x, []);
  }
}
