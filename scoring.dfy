/** The role scores: each role's score is a weighted sum of min-max scaled
    feature columns, with one weight table per source and role. */
module Scoring {

  /** The three roles every source ranks candidates for, in output order. */
  datatype Role = Developer | SeniorDeveloper | SolutionArchitect

  const Roles: seq<Role> := [Developer, SeniorDeveloper, SolutionArchitect]

  /** The role name used in the output headings and the reason dispatch. */
  function RoleName(role: Role): (name: string)
    ensures |name| > 0
  {
    match role
    case Developer => "Developer"
    case SeniorDeveloper => "Senior Developer"
    case SolutionArchitect => "Solution Architect"
  }

  /** Every role appears once in Roles, and distinct roles have distinct
      names. */
  lemma RolesListed(role: Role, other: Role)
    ensures role in Roles
    ensures role != other ==> RoleName(role) != RoleName(other)
  {
  }

  /** One summand of a score: a feature column and its weight. */
  datatype Term<F> = Term(feature: F, weight: real)

  function TotalWeight<F>(terms: seq<Term<F>>): real {
    if terms == [] then 0.0 else terms[0].weight + TotalWeight(terms[1..])
  }

  /** weight_1 * value(feature_1) + weight_2 * value(feature_2) + ... */
  function WeightedSum<F>(terms: seq<Term<F>>, value: F -> real): real {
    if terms == [] then 0.0
    else terms[0].weight * value(terms[0].feature) + WeightedSum(terms[1..], value)
  }

  /** A weight table: no negative weight, and the weights add up to 1. */
  predicate IsWeightTable<F>(terms: seq<Term<F>>) {
    (forall t :: 0 <= t < |terms| ==> terms[t].weight >= 0.0) && TotalWeight(terms) == 1.0
  }

  lemma WeightTimesUnit(w: real, v: real)
    requires w >= 0.0 && 0.0 <= v <= 1.0
    ensures 0.0 <= w * v <= w
  {
    assert w * v <= w * 1.0;
  }

  lemma AddBounds(a: real, aMax: real, b: real, bMax: real)
    requires 0.0 <= a <= aMax && 0.0 <= b <= bMax
    ensures 0.0 <= a + b <= aMax + bMax
  {
  }

  lemma WeightTimesMonotone(w: real, a: real, b: real)
    requires w >= 0.0 && a <= b
    ensures w * a <= w * b
  {
    assert w * (b - a) >= 0.0;
  }

  /** Values in [0, 1] under non-negative weights give a sum between 0 and
      the total weight. */
  lemma {:induction false} WeightedSumBounds<F>(terms: seq<Term<F>>, value: F -> real)
    requires forall t :: 0 <= t < |terms| ==> terms[t].weight >= 0.0
    requires forall t :: 0 <= t < |terms| ==> 0.0 <= value(terms[t].feature) <= 1.0
    ensures 0.0 <= WeightedSum(terms, value) <= TotalWeight(terms)
  {
    if terms != [] {
      var tail := terms[1..];
      var w, v := terms[0].weight, value(terms[0].feature);
      assert forall t :: 0 <= t < |tail| ==> tail[t].weight >= 0.0 && 0.0 <= value(tail[t].feature) <= 1.0 by {
        forall t | 0 <= t < |tail| ensures tail[t].weight >= 0.0 && 0.0 <= value(tail[t].feature) <= 1.0 {
          assert tail[t] == terms[t + 1];
        }
      }
      WeightedSumBounds(tail, value);
      WeightTimesUnit(w, v);
      var head, rest := w * v, WeightedSum(tail, value);
      assert WeightedSum(terms, value) == head + rest;
      assert TotalWeight(terms) == w + TotalWeight(tail);
      AddBounds(head, w, rest, TotalWeight(tail));
    }
  }

  /** Raising no feature value never lowers the score. */
  lemma {:induction false} WeightedSumMonotone<F>(terms: seq<Term<F>>, lo: F -> real, hi: F -> real)
    requires forall t :: 0 <= t < |terms| ==> terms[t].weight >= 0.0
    requires forall t :: 0 <= t < |terms| ==> lo(terms[t].feature) <= hi(terms[t].feature)
    ensures WeightedSum(terms, lo) <= WeightedSum(terms, hi)
  {
    if terms != [] {
      var w := terms[0].weight;
      assert forall t :: 0 <= t < |terms[1..]| ==> terms[1..][t] == terms[t + 1];
      WeightedSumMonotone(terms[1..], lo, hi);
      WeightTimesMonotone(w, lo(terms[0].feature), hi(terms[0].feature));
    }
  }

  /** Under a weight table, scores of values in [0, 1] lie in [0, 1]. */
  lemma ScoreWithinUnit<F>(terms: seq<Term<F>>, value: F -> real)
    requires IsWeightTable(terms)
    requires forall t :: 0 <= t < |terms| ==> 0.0 <= value(terms[t].feature) <= 1.0
    ensures 0.0 <= WeightedSum(terms, value) <= 1.0
  {
    WeightedSumBounds(terms, value);
  }

  /** A candidate at the top of every feature of the table scores exactly 1,
      and one at the bottom of every feature scores 0. */
  lemma {:induction false} ScoreExtremes<F>(terms: seq<Term<F>>, value: F -> real)
    requires forall t :: 0 <= t < |terms| ==> value(terms[t].feature) == 1.0
    ensures WeightedSum(terms, value) == TotalWeight(terms)
    ensures WeightedSum(terms, _ => 0.0) == 0.0
  {
    if terms != [] {
      assert forall t :: 0 <= t < |terms[1..]| ==> terms[1..][t] == terms[t + 1];
      ScoreExtremes(terms[1..], value);
    }
  }

  /** The cell of column f at row i, 0 for a row the column does not have. */
  function Cell<F>(cols: F -> seq<real>, f: F, i: nat): real {
    if i < |cols(f)| then cols(f)[i] else 0.0
  }

  /** Every column a table refers to has exactly n cells. */
  predicate ColumnsOfLength<F>(terms: seq<Term<F>>, cols: F -> seq<real>, n: nat) {
    forall t :: 0 <= t < |terms| ==> |cols(terms[t].feature)| == n
  }

  /** The score column: the weighted sum of row i's cells, for each row. */
  function ScoreColumn<F>(terms: seq<Term<F>>, cols: F -> seq<real>, n: nat): (s: seq<real>)
    ensures |s| == n
  {
    seq(n, i requires 0 <= i < n => WeightedSum(terms, f => Cell(cols, f, i)))
  }

  /** A weighted sum reads only the features its table names: two valuations
      that agree on them give the same sum. */
  lemma {:induction false} WeightedSumReadsOnlyItsFeatures<F>(terms: seq<Term<F>>, v: F -> real, w: F -> real)
    requires forall t :: 0 <= t < |terms| ==> v(terms[t].feature) == w(terms[t].feature)
    ensures WeightedSum(terms, v) == WeightedSum(terms, w)
  {
    if terms != [] {
      assert v(terms[0].feature) == w(terms[0].feature);
      WeightedSumReadsOnlyItsFeatures(terms[1..], v, w);
    }
  }

  /** A score column reads only the columns its table names: a frame that
      differs elsewhere gives the same scores. */
  lemma ScoreColumnReadsOnlyItsFeatures<F>(terms: seq<Term<F>>, cols: F -> seq<real>, other: F -> seq<real>, n: nat)
    requires forall t :: 0 <= t < |terms| ==> cols(terms[t].feature) == other(terms[t].feature)
    ensures ScoreColumn(terms, cols, n) == ScoreColumn(terms, other, n)
  {
    forall i | 0 <= i < n ensures ScoreColumn(terms, cols, n)[i] == ScoreColumn(terms, other, n)[i] {
      WeightedSumReadsOnlyItsFeatures(terms, f => Cell(cols, f, i), f => Cell(other, f, i));
    }
  }

  /** Columns whose cells all lie in [0, 1] give a score column in [0, 1]
      under a weight table. */
  lemma ScoreColumnWithinUnit<F>(terms: seq<Term<F>>, cols: F -> seq<real>, n: nat)
    requires IsWeightTable(terms) && ColumnsOfLength(terms, cols, n)
    requires forall t, i :: 0 <= t < |terms| && 0 <= i < n ==> 0.0 <= cols(terms[t].feature)[i] <= 1.0
    ensures forall i :: 0 <= i < n ==> 0.0 <= ScoreColumn(terms, cols, n)[i] <= 1.0
  {
    forall i | 0 <= i < n ensures 0.0 <= ScoreColumn(terms, cols, n)[i] <= 1.0 {
      ScoreWithinUnit(terms, f => Cell(cols, f, i));
    }
  }
}
