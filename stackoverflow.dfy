/** analyze_stackoverflow: missing tags become "general", three columns are
    capped at their 95th percentile, the tag breadth and architecture keyword
    count are derived from the tags, five columns are min-max scaled, three
    role scores are weighted sums of them, and each role lists its top three
    users with a reason. There is no grouping: every row is a candidate. */
module StackOverflowAnalysis {
  import opened Options
  import opened Text
  import opened Decimal
  import opened Cleaning
  import opened Outliers
  import opened TagFeatures
  import opened Scaling
  import opened Scoring
  import opened Ranking
  import opened Reporting

  /** One row of the StackOverflow table: the columns the analysis reads. A
      missing top_tags cell is None. */
  datatype SoRow = SoRow(
    displayName: string,
    reputation: real,
    totalAnswerScoreFetched: real,
    avgScorePerAnswer: real,
    acceptedAnswerRatio: real,
    topTags: Option<string>)

  function DisplayNames(rows: seq<SoRow>): (col: seq<string>)
    ensures |col| == |rows| && forall i :: 0 <= i < |rows| ==> col[i] == rows[i].displayName
  {
    seq(|rows|, i requires 0 <= i < |rows| => rows[i].displayName)
  }

  function ReputationColumn(rows: seq<SoRow>): (col: seq<real>)
    ensures |col| == |rows| && forall i :: 0 <= i < |rows| ==> col[i] == rows[i].reputation
  {
    seq(|rows|, i requires 0 <= i < |rows| => rows[i].reputation)
  }

  function AnswerScoreColumn(rows: seq<SoRow>): (col: seq<real>)
    ensures |col| == |rows| && forall i :: 0 <= i < |rows| ==> col[i] == rows[i].totalAnswerScoreFetched
  {
    seq(|rows|, i requires 0 <= i < |rows| => rows[i].totalAnswerScoreFetched)
  }

  function AvgScoreColumn(rows: seq<SoRow>): (col: seq<real>)
    ensures |col| == |rows| && forall i :: 0 <= i < |rows| ==> col[i] == rows[i].avgScorePerAnswer
  {
    seq(|rows|, i requires 0 <= i < |rows| => rows[i].avgScorePerAnswer)
  }

  function RatioColumn(rows: seq<SoRow>): (col: seq<real>)
    ensures |col| == |rows| && forall i :: 0 <= i < |rows| ==> col[i] == rows[i].acceptedAnswerRatio
  {
    seq(|rows|, i requires 0 <= i < |rows| => rows[i].acceptedAnswerRatio)
  }

  /** df['top_tags'].fillna('general') */
  function TagsColumn(rows: seq<SoRow>): (col: seq<string>)
    ensures |col| == |rows| && forall i :: 0 <= i < |rows| ==> col[i] == FillTags(rows[i].topTags)
  {
    seq(|rows|, i requires 0 <= i < |rows| => FillTags(rows[i].topTags))
  }

  /** Every column capped at its own limit, the limit being the quantile of
      that column before capping. */
  function CappedColumns(cols: seq<seq<real>>, quantile95: seq<real> -> real): (r: seq<seq<real>>)
    ensures |r| == |cols|
  {
    seq(|cols|, c requires 0 <= c < |cols| => Cap(cols[c], quantile95(cols[c])))
  }

  /** The capping loop: each column in turn is replaced by its capped
      version; the columns not yet reached are untouched. */
  method CapOutliers(cols: seq<seq<real>>, quantile95: seq<real> -> real) returns (capped: seq<seq<real>>)
    ensures capped == CappedColumns(cols, quantile95)
  {
    capped := cols;
    var c := 0;
    while c < |cols|
      invariant 0 <= c <= |cols| && |capped| == |cols|
      invariant capped[..c] == CappedColumns(cols, quantile95)[..c]
      invariant capped[c..] == cols[c..]
    {
      assert capped[c] == cols[c] by {
        assert capped[c..][0] == cols[c..][0];
      }
      var limit := quantile95(capped[c]);
      capped := capped[c := Cap(capped[c], limit)];
      c := c + 1;
    }
  }

  /** After capping, no value of a column exceeds that column's limit, a
      value at or below the limit is kept, a value above becomes the limit,
      and every column keeps its length. */
  lemma CappedColumnsBounds(cols: seq<seq<real>>, quantile95: seq<real> -> real, c: nat, i: nat)
    requires c < |cols| && i < |cols[c]|
    ensures |CappedColumns(cols, quantile95)[c]| == |cols[c]|
    ensures CappedColumns(cols, quantile95)[c][i] <= quantile95(cols[c])
    ensures cols[c][i] <= quantile95(cols[c]) ==> CappedColumns(cols, quantile95)[c][i] == cols[c][i]
    ensures cols[c][i] > quantile95(cols[c]) ==> CappedColumns(cols, quantile95)[c][i] == quantile95(cols[c])
  {
    CapBounds(cols[c], quantile95(cols[c]), i);
  }

  /** The table after cleaning, capping and feature engineering. */
  datatype Prepared = Prepared(
    name: seq<string>,
    reputation: seq<real>,
    totalAnswerScore: seq<real>,
    avgScore: seq<real>,
    ratio: seq<real>,
    tags: seq<string>,
    breadth: seq<nat>,
    archCount: seq<nat>)

  /** Every column has one cell per user. */
  predicate WellFormed(p: Prepared) {
    var n := |p.name|;
    |p.reputation| == n && |p.totalAnswerScore| == n && |p.avgScore| == n && |p.ratio| == n
    && |p.tags| == n && |p.breadth| == n && |p.archCount| == n
  }

  /** df['tag_breadth'] */
  function BreadthColumn(tags: seq<string>): (col: seq<nat>)
    ensures |col| == |tags| && forall i :: 0 <= i < |tags| ==> col[i] == TagBreadth(tags[i])
  {
    seq(|tags|, i requires 0 <= i < |tags| => TagBreadth(tags[i]))
  }

  /** df['arch_keywords_count'] */
  function ArchCountColumn(tags: seq<string>): (col: seq<nat>)
    ensures |col| == |tags| && forall i :: 0 <= i < |tags| ==> col[i] == ArchKeywordsCount(tags[i])
  {
    seq(|tags|, i requires 0 <= i < |tags| => ArchKeywordsCount(tags[i]))
  }

  /** The columns the scaler reads are capped reputation and average score,
      the raw acceptance ratio, and the two tag features. */
  function Prepare(rows: seq<SoRow>, quantile95: seq<real> -> real): (p: Prepared)
    ensures WellFormed(p)
  {
    var capped := CappedColumns([ReputationColumn(rows), AnswerScoreColumn(rows), AvgScoreColumn(rows)], quantile95);
    var tags := TagsColumn(rows);
    Prepared(DisplayNames(rows), capped[0], capped[1], capped[2], RatioColumn(rows),
             tags, BreadthColumn(tags), ArchCountColumn(tags))
  }

  /** Every feature of a row: its reputation and average score capped at
      their limits, its tags filled, its breadth the number of its tags and
      its keyword count at most 7. */
  lemma PreparedRow(rows: seq<SoRow>, quantile95: seq<real> -> real, i: nat)
    requires i < |rows|
    ensures var p := Prepare(rows, quantile95);
      && p.name[i] == rows[i].displayName
      && p.reputation[i] == Capped(rows[i].reputation, quantile95(ReputationColumn(rows)))
      && p.totalAnswerScore[i] == Capped(rows[i].totalAnswerScoreFetched, quantile95(AnswerScoreColumn(rows)))
      && p.avgScore[i] == Capped(rows[i].avgScorePerAnswer, quantile95(AvgScoreColumn(rows)))
      && p.ratio[i] == rows[i].acceptedAnswerRatio
      && p.tags[i] == FillTags(rows[i].topTags)
      && p.breadth[i] == CountChar(p.tags[i], ',') + 1
      && p.archCount[i] <= |ArchKeywords|
  {
    var p := Prepare(rows, quantile95);
    TagBreadthCountsCommas(p.tags[i]);
    ArchKeywordsCountRange(p.tags[i]);
  }

  /** The scaled columns the scores read. */
  datatype SoFeature = Reputation | AcceptedRatio | AvgScore | Breadth | ArchCount

  /** The weights of each role's score. */
  function SoWeights(role: Role): (terms: seq<Term<SoFeature>>)
    ensures IsWeightTable(terms)
  {
    match role
    case Developer => [Term(AcceptedRatio, 0.7), Term(AvgScore, 0.3)]
    case SeniorDeveloper => [Term(Reputation, 0.6), Term(AvgScore, 0.4)]
    case SolutionArchitect => [Term(ArchCount, 0.5), Term(Breadth, 0.3), Term(Reputation, 0.2)]
  }

  /** A column of naturals read as numbers. */
  function AsReals(col: seq<nat>): (r: seq<real>)
    ensures |r| == |col| && forall i :: 0 <= i < |col| ==> r[i] == col[i] as real
  {
    seq(|col|, i requires 0 <= i < |col| => col[i] as real)
  }

  /** The scaled frame: each feature's column. */
  function SoFrame(reputation: seq<real>, ratio: seq<real>, avgScore: seq<real>, breadth: seq<real>, archCount: seq<real>)
    : SoFeature -> seq<real>
  {
    (f: SoFeature) => match f
      case Reputation => reputation
      case AcceptedRatio => ratio
      case AvgScore => avgScore
      case Breadth => breadth
      case ArchCount => archCount
  }

  /** Every feature min-max scaled. */
  function SoScaled(p: Prepared): SoFeature -> seq<real> {
    SoFrame(
      MinMaxScale(p.reputation),
      MinMaxScale(p.ratio),
      MinMaxScale(p.avgScore),
      MinMaxScale(AsReals(p.breadth)),
      MinMaxScale(AsReals(p.archCount)))
  }

  function SoScores(p: Prepared, role: Role): seq<real> {
    ScoreColumn(SoWeights(role), SoScaled(p), |p.name|)
  }

  /** The score columns of the three roles, in the order of Roles. */
  function SoScoreColumns(p: Prepared): (scores: seq<seq<real>>)
    requires WellFormed(p)
    ensures ScoresFit(scores, p.name)
  {
    [SoScores(p, Developer), SoScores(p, SeniorDeveloper), SoScores(p, SolutionArchitect)]
  }

  /** One scaled StackOverflow column: a cell per user, each in [0, 1]. */
  lemma SoScaledWithinUnit(p: Prepared, f: SoFeature)
    requires WellFormed(p)
    ensures |SoScaled(p)(f)| == |p.name|
    ensures forall i :: 0 <= i < |p.name| ==> 0.0 <= SoScaled(p)(f)[i] <= 1.0
  {
    match f
    case Reputation => MinMaxWithinUnit(p.reputation);
    case AcceptedRatio => MinMaxWithinUnit(p.ratio);
    case AvgScore => MinMaxWithinUnit(p.avgScore);
    case Breadth => MinMaxWithinUnit(AsReals(p.breadth));
    case ArchCount => MinMaxWithinUnit(AsReals(p.archCount));
  }

  /** Every StackOverflow score lies in [0, 1]. */
  lemma SoScoresWithinUnit(p: Prepared, role: Role)
    requires WellFormed(p)
    ensures forall i :: 0 <= i < |p.name| ==> 0.0 <= SoScores(p, role)[i] <= 1.0
  {
    var cols := SoScaled(p);
    var terms := SoWeights(role);
    forall t | 0 <= t < |terms|
      ensures |cols(terms[t].feature)| == |p.name|
      ensures forall i :: 0 <= i < |p.name| ==> 0.0 <= cols(terms[t].feature)[i] <= 1.0
    {
      SoScaledWithinUnit(p, terms[t].feature);
    }
    ScoreColumnWithinUnit(terms, cols, |p.name|);
  }

  /** The opening of the architect reason, up to the tags. */
  function BreadthHead(breadth: nat): string {
    "Vast technical breadth. Specialized in " + NatToString(breadth) + " domains. Key tags: "
  }

  /** get_so_reason for user i. */
  function SoReason(role: Role, p: Prepared, i: nat): string
    requires WellFormed(p) && i < |p.name|
  {
    match role
    case Developer =>
      "High execution reliability. " + FormatPercent0(p.ratio[i]) + " acceptance rate for code solutions."
    case SeniorDeveloper =>
      "Established technical authority. " + IntToString(Trunc(p.reputation[i]))
      + "+ reputation points via peer validation."
    case SolutionArchitect =>
      BreadthHead(p.breadth[i]) + p.tags[i]
  }

  /** The architect reason lists the user's whole tag text, untruncated, and
      the breadth it shows reads back as the number of tags. */
  lemma ArchitectShowsAllTags(p: Prepared, i: nat)
    requires WellFormed(p) && i < |p.name|
    ensures EndsWith(SoReason(SolutionArchitect, p, i), p.tags[i])
    ensures ParseFloat(NatToString(p.breadth[i])) == Some(p.breadth[i] as real)
  {
    var r := SoReason(SolutionArchitect, p, i);
    assert r[|r| - |p.tags[i]|..] == p.tags[i];
    ParseNatToString(p.breadth[i]);
  }

  /** A user without tags is described as having one domain, "general". */
  lemma MissingTagsReason(rows: seq<SoRow>, quantile95: seq<real> -> real, i: nat)
    requires i < |rows| && rows[i].topTags.None?
    ensures SoReason(SolutionArchitect, Prepare(rows, quantile95), i) == BreadthHead(1) + "general"
  {
    PreparedRow(rows, quantile95, i);
    MissingTagsFeatures();
  }

  /** A ratio in [0, 1] shows as a whole percentage from 0 to 100, at most
      half a point from the exact one. */
  lemma AcceptanceShownAsPercent(ratio: real)
    requires 0.0 <= ratio <= 1.0
    ensures exists pct: nat ::
      (pct <= 100 && FormatPercent0(ratio) == NatToString(pct) + "%"
       && ratio * 100.0 - 0.5 <= pct as real <= ratio * 100.0 + 0.5)
  {
    var pct := RoundHalfEven(ratio * 100.0);
    assert FormatPercent0(ratio) == NatToString(pct) + "%";
  }

  /** The reputation the Senior reason shows is the capped one: below the
      limit plus one, whatever the raw reputation. */
  lemma SeniorShowsCappedReputation(rows: seq<SoRow>, quantile95: seq<real> -> real, i: nat)
    requires i < |rows|
    ensures var p := Prepare(rows, quantile95);
      SoReason(SeniorDeveloper, p, i)
      == "Established technical authority. " + IntToString(Trunc(p.reputation[i])) + "+ reputation points via peer validation."
      && Trunc(p.reputation[i]) as real < quantile95(ReputationColumn(rows)) + 1.0
  {
    PreparedRow(rows, quantile95, i);
  }

  /** The reasons of all users, by role and row index. */
  function SoBasis(p: Prepared): (Role, nat) -> string
    requires WellFormed(p)
  {
    (role: Role, i: nat) => if i < |p.name| then SoReason(role, p, i) else ""
  }

  /** The whole of analyze_stackoverflow: None for a missing file; an empty
      table makes the scaler raise; otherwise one short list per role. */
  function SoReport(table: Option<seq<SoRow>>, quantile95: seq<real> -> real): Report {
    if table.None? then Skipped
    else if table.value == [] then Raised
    else
      var p := Prepare(table.value, quantile95);
      Ranked(Shortlists(SoScoreColumns(p), p.name, SoBasis(p)))
  }

  /** analyze_stackoverflow step by step: read, fill tags, cap the three
      columns in a loop, derive the tag features, scale, score, and emit the
      three short lists. */
  method AnalyzeStackOverflow(table: Option<seq<SoRow>>, quantile95: seq<real> -> real) returns (report: Report)
    ensures report == SoReport(table, quantile95)
  {
    if table.None? {
      return Skipped;
    }
    var rows := table.value;
    var tags := TagsColumn(rows);
    var capped := CapOutliers([ReputationColumn(rows), AnswerScoreColumn(rows), AvgScoreColumn(rows)], quantile95);
    var breadth := BreadthColumn(tags);
    var archCount := ArchCountColumn(tags);
    if rows == [] {
      return Raised;
    }
    var prepared := Prepared(DisplayNames(rows), capped[0], capped[1], capped[2], RatioColumn(rows),
                             tags, breadth, archCount);
    assert prepared == Prepare(rows, quantile95);
    var scaled := SoFrame(
      MinMaxScale(capped[0]), MinMaxScale(RatioColumn(rows)), MinMaxScale(capped[2]),
      MinMaxScale(AsReals(breadth)), MinMaxScale(AsReals(archCount)));
    assert scaled == SoScaled(prepared);
    var n := |rows|;
    var developer := ScoreColumn(SoWeights(Developer), scaled, n);
    var senior := ScoreColumn(SoWeights(SeniorDeveloper), scaled, n);
    var architect := ScoreColumn(SoWeights(SolutionArchitect), scaled, n);
    assert [developer, senior, architect] == SoScoreColumns(prepared);
    var lists := EmitShortlists([developer, senior, architect], prepared.name, SoBasis(prepared));
    report := Ranked(lists);
  }

  /** Each role's short list is a top selection of the table's rows by its
      score, each shown with its display name and reason. */
  lemma SoShortlist(rows: seq<SoRow>, quantile95: seq<real> -> real, r: nat)
    requires r < |Roles|
    ensures var p := Prepare(rows, quantile95);
      var list := Shortlists(SoScoreColumns(p), p.name, SoBasis(p))[r];
      exists picked ::
        (IsTopSelection(SoScores(p, Roles[r]), picked, TopCount)
         && ListsRows(list, Roles[r], p.name, SoBasis(p), picked)
         && forall j :: 0 <= j < |picked| ==> list.entries[j].name == rows[picked[j]].displayName)
  {
    var p := Prepare(rows, quantile95);
    var scores := SoScoreColumns(p);
    ShortlistIsTopSelection(Roles[r], scores[r], p.name, SoBasis(p));
    var list := Shortlists(scores, p.name, SoBasis(p))[r];
    var picked :| IsTopSelection(scores[r], picked, TopCount)
      && ListsRows(list, Roles[r], p.name, SoBasis(p), picked);
    assert p.name == DisplayNames(rows);
    forall j | 0 <= j < |picked| ensures list.entries[j].name == rows[picked[j]].displayName {
      assert list.entries[j].name == p.name[picked[j]];
    }
  }

  /** A missing file gives no output, an empty table raises, and otherwise
      every role lists a top selection of the rows by its score. */
  lemma SoReportOutcome(table: Option<seq<SoRow>>, quantile95: seq<real> -> real, r: nat)
    requires r < |Roles|
    ensures SoReport(table, quantile95) == Skipped <==> table.None?
    ensures SoReport(table, quantile95) == Raised <==> table == Some([])
    ensures SoReport(table, quantile95).Ranked? ==>
      var p := Prepare(table.value, quantile95);
      var list := SoReport(table, quantile95).shortlists[r];
      exists picked ::
        (IsTopSelection(SoScores(p, Roles[r]), picked, TopCount)
         && ListsRows(list, Roles[r], p.name, SoBasis(p), picked)
         && forall j :: 0 <= j < |picked| ==> list.entries[j].name == table.value[picked[j]].displayName)
  {
    if table.Some? && table.value != [] {
      SoShortlist(table.value, quantile95, r);
    }
  }
}
