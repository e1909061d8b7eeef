/** df.groupby(key).agg({...}): one output row per distinct key, each
    column reduced over the rows sharing that key with sum, max, mean or
    count. Keys are compared for equality; groups come out in order of first
    appearance. */
module Grouping {
  import opened Options
  import opened Stats

  /** The distinct keys, in order of first appearance. */
  function Distinct<K(==)>(ks: seq<K>): (ids: seq<K>)
    ensures forall i :: 0 <= i < |ks| ==> ks[i] in ids
    ensures forall i :: 0 <= i < |ids| ==> ids[i] in ks
    ensures NoDuplicates(ids)
  {
    if ks == [] then []
    else
      var front := Distinct(ks[..|ks| - 1]);
      var last := ks[|ks| - 1];
      assert ks == ks[..|ks| - 1] + [last];
      if last in front then front else front + [last]
  }

  /** Sum of the values whose row carries key k. */
  function SumWhere<K(==)>(ks: seq<K>, vs: seq<real>, k: K): real
    requires |ks| == |vs|
  {
    if ks == [] then 0.0
    else (if ks[0] == k then vs[0] else 0.0) + SumWhere(ks[1..], vs[1..], k)
  }

  /** Number of rows with key k whose cell is present (pandas' count skips
      missing cells). */
  function CountWhere<K(==)>(ks: seq<K>, present: seq<bool>, k: K): (c: nat)
    requires |ks| == |present|
    ensures c <= GroupSize(ks, k)
    ensures c == GroupSize(ks, k) <== forall i :: 0 <= i < |ks| ==> present[i]
  {
    if ks == [] then 0
    else (if ks[0] == k && present[0] then 1 else 0) + CountWhere(ks[1..], present[1..], k)
  }

  /** Number of rows with key k. */
  function GroupSize<K(==)>(ks: seq<K>, k: K): (n: nat)
    ensures n > 0 <==> k in ks
  {
    if ks == [] then 0
    else (if ks[0] == k then 1 else 0) + GroupSize(ks[1..], k)
  }

  /** Largest value among the rows with key k. */
  function MaxWhere<K(==)>(ks: seq<K>, vs: seq<real>, k: K): (m: real)
    requires |ks| == |vs| && k in ks
    ensures exists i :: 0 <= i < |ks| && ks[i] == k && vs[i] == m
    ensures forall i :: 0 <= i < |ks| && ks[i] == k ==> vs[i] <= m
  {
    if ks[0] == k && (k !in ks[1..] || MaxWhere(ks[1..], vs[1..], k) <= vs[0]) then vs[0]
    else
      var m := MaxWhere(ks[1..], vs[1..], k);
      assert forall i :: 1 <= i < |ks| ==> ks[i] == ks[1..][i - 1] && vs[i] == vs[1..][i - 1];
      m
  }

  /** Mean of the values of the rows with key k. */
  function MeanWhere<K(==)>(ks: seq<K>, vs: seq<real>, k: K): real
    requires |ks| == |vs| && k in ks
  {
    SumWhere(ks, vs, k) / GroupSize(ks, k) as real
  }

  /** The group sum lies between the group size times a lower bound and
      the group size times an upper bound of the group's values. */
  lemma {:induction false} SumWhereBounds<K>(ks: seq<K>, vs: seq<real>, k: K, lo: real, hi: real)
    requires |ks| == |vs|
    requires forall i :: 0 <= i < |ks| && ks[i] == k ==> lo <= vs[i] <= hi
    ensures Times(GroupSize(ks, k), lo) <= SumWhere(ks, vs, k) <= Times(GroupSize(ks, k), hi)
  {
    if ks != [] {
      var tks, tvs := ks[1..], vs[1..];
      assert forall i :: 0 <= i < |tks| && tks[i] == k ==> lo <= tvs[i] <= hi by {
        forall i | 0 <= i < |tks| && tks[i] == k ensures lo <= tvs[i] <= hi {
          assert tks[i] == ks[i + 1] && tvs[i] == vs[i + 1];
        }
      }
      SumWhereBounds(tks, tvs, k, lo, hi);
      var n, total := GroupSize(tks, k), SumWhere(tks, tvs, k);
      if ks[0] == k {
        assert GroupSize(ks, k) == n + 1 && SumWhere(ks, vs, k) == vs[0] + total;
      } else {
        assert GroupSize(ks, k) == n && SumWhere(ks, vs, k) == total;
      }
    }
  }

  /** The mean of a group lies within any bounds of its values, so a group
      of values in [lo, hi] has its mean in [lo, hi]. */
  lemma MeanWithinGroup<K>(ks: seq<K>, vs: seq<real>, k: K, lo: real, hi: real)
    requires |ks| == |vs| && k in ks
    requires forall i :: 0 <= i < |ks| && ks[i] == k ==> lo <= vs[i] <= hi
    ensures lo <= MeanWhere(ks, vs, k) <= hi
  {
    SumWhereBounds(ks, vs, k, lo, hi);
    AverageBounds(SumWhere(ks, vs, k), GroupSize(ks, k), lo, hi);
  }

  /** c added to itself n times. */
  function Times(n: nat, c: real): real {
    if n == 0 then 0.0 else c + Times(n - 1, c)
  }

  lemma {:induction false} TimesIsProduct(n: nat, c: real)
    ensures Times(n, c) == n as real * c
  {
    if n > 0 {
      TimesIsProduct(n - 1, c);
      MulStep((n - 1) as real, c);
    }
  }

  lemma MulStep(n: real, c: real)
    ensures (n + 1.0) * c == n * c + c
  {
  }

  /** A total between n times lo and n times hi, for n > 0, averages
      between lo and hi. */
  lemma AverageBounds(total: real, n: nat, lo: real, hi: real)
    requires n > 0 && Times(n, lo) <= total <= Times(n, hi)
    ensures lo <= total / n as real <= hi
  {
    TimesIsProduct(n, lo);
    TimesIsProduct(n, hi);
    DivBounds(total, n as real, lo, hi);
  }

  lemma DivBounds(total: real, n: real, lo: real, hi: real)
    requires n > 0.0 && lo * n <= total <= hi * n
    ensures lo <= total / n <= hi
  {
  }

  /** Each key occurs at exactly one row. */
  predicate OccursOnlyAt<K(==)>(ks: seq<K>, i: nat) {
    i < |ks| && forall j :: 0 <= j < |ks| && j != i ==> ks[j] != ks[i]
  }

  /** A group of one row passes through every reducer unchanged. */
  lemma {:induction false} SingleRowGroup<K>(ks: seq<K>, vs: seq<real>, present: seq<bool>, i: nat)
    requires |ks| == |vs| == |present| && OccursOnlyAt(ks, i)
    ensures SumWhere(ks, vs, ks[i]) == vs[i]
    ensures GroupSize(ks, ks[i]) == 1
    ensures CountWhere(ks, present, ks[i]) == (if present[i] then 1 else 0)
    ensures MaxWhere(ks, vs, ks[i]) == vs[i]
    ensures MeanWhere(ks, vs, ks[i]) == vs[i]
  {
    var k := ks[i];
    if i == 0 {
      assert k !in ks[1..];
      AbsentKey(ks[1..], vs[1..], present[1..], k);
    } else {
      assert ks[0] != k;
      assert OccursOnlyAt(ks[1..], i - 1) by {
        forall j | 0 <= j < |ks[1..]| && j != i - 1 ensures ks[1..][j] != ks[1..][i - 1] {
          assert ks[1..][j] == ks[j + 1];
        }
      }
      SingleRowGroup(ks[1..], vs[1..], present[1..], i - 1);
    }
  }

  /** A key that does not occur has an empty group. */
  lemma {:induction false} AbsentKey<K>(ks: seq<K>, vs: seq<real>, present: seq<bool>, k: K)
    requires |ks| == |vs| == |present| && k !in ks
    ensures SumWhere(ks, vs, k) == 0.0
    ensures CountWhere(ks, present, k) == 0
  {
    if ks != [] {
      assert k !in ks[1..];
      AbsentKey(ks[1..], vs[1..], present[1..], k);
    }
  }

  /** The column of group sums, one per key of ids. */
  function GroupTotals<K(==)>(ids: seq<K>, ks: seq<K>, vs: seq<real>): (t: seq<real>)
    requires |ks| == |vs|
    ensures |t| == |ids|
  {
    seq(|ids|, j requires 0 <= j < |ids| => SumWhere(ks, vs, ids[j]))
  }

  predicate NoDuplicates<K(==)>(ids: seq<K>) {
    forall i, j :: 0 <= i < j < |ids| ==> ids[i] != ids[j]
  }

  /** Taking one row off the front of the table changes the total of the
      groups listed in ids by that row's value, if its key is listed. */
  lemma {:induction false} GroupTotalsStep<K>(ids: seq<K>, ks: seq<K>, vs: seq<real>)
    requires |ks| == |vs| > 0 && NoDuplicates(ids)
    ensures Sum(GroupTotals(ids, ks, vs))
         == Sum(GroupTotals(ids, ks[1..], vs[1..])) + (if ks[0] in ids then vs[0] else 0.0)
  {
    if ids != [] {
      var rest := ids[1..];
      assert NoDuplicates(rest) by {
        forall i, j | 0 <= i < j < |rest| ensures rest[i] != rest[j] {
          assert rest[i] == ids[i + 1] && rest[j] == ids[j + 1];
        }
      }
      GroupTotalsStep(rest, ks, vs);
      assert GroupTotals(ids, ks, vs)[1..] == GroupTotals(rest, ks, vs);
      assert GroupTotals(ids, ks[1..], vs[1..])[1..] == GroupTotals(rest, ks[1..], vs[1..]);
      assert ids[0] == ks[0] ==> ks[0] !in rest by {
        forall j | 0 <= j < |rest| ensures rest[j] != ids[0] {
          assert rest[j] == ids[j + 1];
        }
      }
      assert ks[0] in ids <==> ks[0] == ids[0] || ks[0] in rest;
    }
  }

  /** An empty table has a zero total for every group. */
  lemma {:induction false} GroupTotalsOfNothing<K>(ids: seq<K>)
    ensures Sum(GroupTotals(ids, [], [])) == 0.0
  {
    if ids != [] {
      assert GroupTotals(ids, [], [])[1..] == GroupTotals(ids[1..], [], []);
      GroupTotalsOfNothing(ids[1..]);
    }
  }

  /** Summing the group sums over keys that cover every row gives the sum
      of the whole column: grouping neither loses nor invents any amount. */
  lemma {:induction false} GroupTotalsConserve<K>(ids: seq<K>, ks: seq<K>, vs: seq<real>)
    requires |ks| == |vs| && NoDuplicates(ids)
    requires forall i :: 0 <= i < |ks| ==> ks[i] in ids
    ensures Sum(GroupTotals(ids, ks, vs)) == Sum(vs)
  {
    if ks == [] {
      GroupTotalsOfNothing(ids);
    } else {
      GroupTotalsStep(ids, ks, vs);
      assert ks[0] in ids;
      assert forall i :: 0 <= i < |ks[1..]| ==> ks[1..][i] == ks[i + 1];
      GroupTotalsConserve(ids, ks[1..], vs[1..]);
    }
  }

  /** The group sums over the distinct keys add up to the column's sum. */
  lemma SumIsConserved<K>(ks: seq<K>, vs: seq<real>)
    requires |ks| == |vs|
    ensures Sum(GroupTotals(Distinct(ks), ks, vs)) == Sum(vs)
  {
    GroupTotalsConserve(Distinct(ks), ks, vs);
  }

  /** The group sizes over the distinct keys add up to the number of rows. */
  lemma GroupSizesAddUp<K>(ks: seq<K>)
    ensures Sum(GroupTotals(Distinct(ks), ks, seq(|ks|, _ => 1.0))) == |ks| as real
  {
    var ones := seq(|ks|, _ => 1.0);
    SumIsConserved(ks, ones);
    SumOfOnes(|ks|);
  }

  lemma {:induction false} SumOfOnes(n: nat)
    ensures Sum(seq(n, _ => 1.0)) == n as real
  {
    if n > 0 {
      assert seq(n, _ => 1.0)[1..] == seq(n - 1, _ => 1.0);
      SumOfOnes(n - 1);
    }
  }

  /** A group size is the sum of a column of ones over that group. */
  lemma {:induction false} GroupSizeIsSumOfOnes<K>(ks: seq<K>, k: K)
    ensures GroupSize(ks, k) as real == SumWhere(ks, seq(|ks|, _ => 1.0), k)
  {
    if ks != [] {
      assert seq(|ks|, _ => 1.0)[1..] == seq(|ks| - 1, _ => 1.0);
      GroupSizeIsSumOfOnes(ks[1..], k);
    }
  }

  /** The keys of the rows whose key is present, in row order (groupby drops
      the rows whose key is missing). */
  function PresentKeys<K>(keys: seq<Option<K>>): (ks: seq<K>)
    ensures |ks| <= |keys|
  {
    if keys == [] then []
    else (if keys[0].Some? then [keys[0].value] else []) + PresentKeys(keys[1..])
  }

  /** The cells of a column on the rows whose key is present. */
  function KeepKeyed<K, T>(keys: seq<Option<K>>, vs: seq<T>): (kept: seq<T>)
    requires |keys| == |vs|
    ensures |kept| == |PresentKeys(keys)|
  {
    if keys == [] then []
    else (if keys[0].Some? then [vs[0]] else []) + KeepKeyed(keys[1..], vs[1..])
  }

  /** A key is kept exactly when some row carries it. */
  lemma {:induction false} PresentKeysMembership<K>(keys: seq<Option<K>>, k: K)
    ensures k in PresentKeys(keys) <==> Some(k) in keys
  {
    if keys != [] {
      PresentKeysMembership(keys[1..], k);
      assert keys == [keys[0]] + keys[1..];
    }
  }

  /** Dropping the rows without a key changes no group's sum, size or
      count: a group is the same rows either way. */
  lemma {:induction false} DroppingMissingKeys<K>(keys: seq<Option<K>>, vs: seq<real>, present: seq<bool>, k: K)
    requires |keys| == |vs| == |present|
    ensures SumWhere(PresentKeys(keys), KeepKeyed(keys, vs), k) == SumWhere(keys, vs, Some(k))
    ensures GroupSize(PresentKeys(keys), k) == GroupSize(keys, Some(k))
    ensures CountWhere(PresentKeys(keys), KeepKeyed(keys, present), k) == CountWhere(keys, present, Some(k))
  {
    if keys != [] {
      DroppingMissingKeys(keys[1..], vs[1..], present[1..], k);
      if keys[0].Some? {
        var ks, kv, kp := PresentKeys(keys), KeepKeyed(keys, vs), KeepKeyed(keys, present);
        assert ks[0] == keys[0].value && ks[1..] == PresentKeys(keys[1..]);
        assert kv[0] == vs[0] && kv[1..] == KeepKeyed(keys[1..], vs[1..]);
        assert kp[0] == present[0] && kp[1..] == KeepKeyed(keys[1..], present[1..]);
      } else {
        assert PresentKeys(keys) == PresentKeys(keys[1..]);
        assert KeepKeyed(keys, vs) == KeepKeyed(keys[1..], vs[1..]);
        assert KeepKeyed(keys, present) == KeepKeyed(keys[1..], present[1..]);
      }
    }
  }

  /** Dropping the rows without a key changes no group's maximum. */
  lemma {:induction false} DroppingMissingKeysMax<K>(keys: seq<Option<K>>, vs: seq<real>, k: K)
    requires |keys| == |vs| && Some(k) in keys
    ensures k in PresentKeys(keys)
    ensures MaxWhere(PresentKeys(keys), KeepKeyed(keys, vs), k) == MaxWhere(keys, vs, Some(k))
  {
    PresentKeysMembership(keys, k);
    var ks, kv := PresentKeys(keys), KeepKeyed(keys, vs);
    PresentKeysMembership(keys[1..], k);
    assert keys == [keys[0]] + keys[1..];
    if keys[0].None? {
      assert ks == PresentKeys(keys[1..]) && kv == KeepKeyed(keys[1..], vs[1..]);
      DroppingMissingKeysMax(keys[1..], vs[1..], k);
    } else {
      assert ks[0] == keys[0].value && ks[1..] == PresentKeys(keys[1..]);
      assert kv[0] == vs[0] && kv[1..] == KeepKeyed(keys[1..], vs[1..]);
      if Some(k) in keys[1..] {
        DroppingMissingKeysMax(keys[1..], vs[1..], k);
      }
    }
  }
}
