/** analyze_github: the GitHub rows are grouped by username, stars and forks
    are put on a log scale, five columns are min-max scaled, three role
    scores are weighted sums of them, and each role lists its top three
    candidates with a reason. */
module GitHubAnalysis {
  import opened Options
  import opened Text
  import opened Decimal
  import opened Grouping
  import opened Scaling
  import opened Scoring
  import opened Ranking
  import opened Reporting

  /** One row of the GitHub table: the columns the analysis reads. A missing
      username is None. */
  datatype GitHubRow = GitHubRow(
    username: Option<string>,
    publicRepos: real,
    totalStars: real,
    totalForks: real,
    commits12m: real,
    hasCicd: real)

  function Usernames(rows: seq<GitHubRow>): (col: seq<Option<string>>)
    ensures |col| == |rows| && forall i :: 0 <= i < |rows| ==> col[i] == rows[i].username
  {
    seq(|rows|, i requires 0 <= i < |rows| => rows[i].username)
  }

  function ReposColumn(rows: seq<GitHubRow>): (col: seq<real>)
    ensures |col| == |rows| && forall i :: 0 <= i < |rows| ==> col[i] == rows[i].publicRepos
  {
    seq(|rows|, i requires 0 <= i < |rows| => rows[i].publicRepos)
  }

  function StarsColumn(rows: seq<GitHubRow>): (col: seq<real>)
    ensures |col| == |rows| && forall i :: 0 <= i < |rows| ==> col[i] == rows[i].totalStars
  {
    seq(|rows|, i requires 0 <= i < |rows| => rows[i].totalStars)
  }

  function ForksColumn(rows: seq<GitHubRow>): (col: seq<real>)
    ensures |col| == |rows| && forall i :: 0 <= i < |rows| ==> col[i] == rows[i].totalForks
  {
    seq(|rows|, i requires 0 <= i < |rows| => rows[i].totalForks)
  }

  function CommitsColumn(rows: seq<GitHubRow>): (col: seq<real>)
    ensures |col| == |rows| && forall i :: 0 <= i < |rows| ==> col[i] == rows[i].commits12m
  {
    seq(|rows|, i requires 0 <= i < |rows| => rows[i].commits12m)
  }

  function CicdColumn(rows: seq<GitHubRow>): (col: seq<real>)
    ensures |col| == |rows| && forall i :: 0 <= i < |rows| ==> col[i] == rows[i].hasCicd
  {
    seq(|rows|, i requires 0 <= i < |rows| => rows[i].hasCicd)
  }

  /** The grouped table: one row per username, as columns. */
  datatype Candidates = Candidates(
    username: seq<string>,
    publicRepos: seq<real>,
    totalStars: seq<real>,
    totalForks: seq<real>,
    commits12m: seq<real>,
    hasCicd: seq<real>)

  /** Every column has one cell per candidate. */
  predicate WellFormed(c: Candidates) {
    var n := |c.username|;
    |c.publicRepos| == n && |c.totalStars| == n && |c.totalForks| == n
    && |c.commits12m| == n && |c.hasCicd| == n
  }

  /** groupby('username') with public_repos, total_stars, total_forks and
      commits_12m summed and has_cicd reduced by max. */
  function Aggregate(rows: seq<GitHubRow>): (c: Candidates)
    ensures WellFormed(c)
  {
    var keys := Usernames(rows);
    var ks := PresentKeys(keys);
    var ids := Distinct(ks);
    var cicd := KeepKeyed(keys, CicdColumn(rows));
    Candidates(
      ids,
      GroupTotals(ids, ks, KeepKeyed(keys, ReposColumn(rows))),
      GroupTotals(ids, ks, KeepKeyed(keys, StarsColumn(rows))),
      GroupTotals(ids, ks, KeepKeyed(keys, ForksColumn(rows))),
      GroupTotals(ids, ks, KeepKeyed(keys, CommitsColumn(rows))),
      seq(|ids|, j requires 0 <= j < |ids| => MaxWhere(ks, cicd, ids[j])))
  }

  /** Exactly one candidate per username that occurs in the table. */
  lemma OneCandidatePerUsername(rows: seq<GitHubRow>)
    ensures NoDuplicates(Aggregate(rows).username)
    ensures forall u :: u in Aggregate(rows).username <==> Some(u) in Usernames(rows)
  {
    var keys := Usernames(rows);
    forall u ensures u in Aggregate(rows).username <==> u in PresentKeys(keys) {
      var ids := Distinct(PresentKeys(keys));
      if u in PresentKeys(keys) {
        var i :| 0 <= i < |PresentKeys(keys)| && PresentKeys(keys)[i] == u;
      }
      if u in ids {
        var j :| 0 <= j < |ids| && ids[j] == u;
      }
    }
    forall u ensures u in PresentKeys(keys) <==> Some(u) in keys {
      PresentKeysMembership(keys, u);
    }
  }

  /** Each candidate's totals are the sums over that username's rows of the
      whole table, and its has_cicd is the largest of those rows' values. */
  lemma CandidateTotals(rows: seq<GitHubRow>, j: nat)
    requires j < |Aggregate(rows).username|
    ensures Some(Aggregate(rows).username[j]) in Usernames(rows)
    ensures var c, u := Aggregate(rows), Some(Aggregate(rows).username[j]);
      && c.publicRepos[j] == SumWhere(Usernames(rows), ReposColumn(rows), u)
      && c.totalStars[j] == SumWhere(Usernames(rows), StarsColumn(rows), u)
      && c.totalForks[j] == SumWhere(Usernames(rows), ForksColumn(rows), u)
      && c.commits12m[j] == SumWhere(Usernames(rows), CommitsColumn(rows), u)
      && c.hasCicd[j] == MaxWhere(Usernames(rows), CicdColumn(rows), u)
  {
    var keys := Usernames(rows);
    var u := Aggregate(rows).username[j];
    OneCandidatePerUsername(rows);
    var present := seq(|rows|, _ => true);
    DroppingMissingKeys(keys, ReposColumn(rows), present, u);
    DroppingMissingKeys(keys, StarsColumn(rows), present, u);
    DroppingMissingKeys(keys, ForksColumn(rows), present, u);
    DroppingMissingKeys(keys, CommitsColumn(rows), present, u);
    DroppingMissingKeysMax(keys, CicdColumn(rows), u);
  }

  /** A username with a single row keeps that row's values. */
  lemma SingleRowCandidate(rows: seq<GitHubRow>, i: nat, j: nat)
    requires i < |rows| && OccursOnlyAt(Usernames(rows), i)
    requires j < |Aggregate(rows).username| && Some(Aggregate(rows).username[j]) == rows[i].username
    ensures var c := Aggregate(rows);
      && c.publicRepos[j] == rows[i].publicRepos
      && c.totalStars[j] == rows[i].totalStars
      && c.totalForks[j] == rows[i].totalForks
      && c.commits12m[j] == rows[i].commits12m
      && c.hasCicd[j] == rows[i].hasCicd
  {
    var keys := Usernames(rows);
    var present := seq(|rows|, _ => true);
    CandidateTotals(rows, j);
    SingleRowGroup(keys, ReposColumn(rows), present, i);
    SingleRowGroup(keys, StarsColumn(rows), present, i);
    SingleRowGroup(keys, ForksColumn(rows), present, i);
    SingleRowGroup(keys, CommitsColumn(rows), present, i);
    SingleRowGroup(keys, CicdColumn(rows), present, i);
  }

  /** The scaled columns the scores read. */
  datatype GitHubFeature = PublicRepos | LogStars | LogForks | Commits12m | HasCicd

  /** The weights of each role's score. */
  function GitHubWeights(role: Role): (terms: seq<Term<GitHubFeature>>)
    ensures IsWeightTable(terms)
  {
    match role
    case Developer => [Term(Commits12m, 0.7), Term(PublicRepos, 0.3)]
    case SeniorDeveloper => [Term(LogStars, 0.6), Term(PublicRepos, 0.4)]
    case SolutionArchitect => [Term(LogForks, 0.5), Term(HasCicd, 0.4), Term(PublicRepos, 0.1)]
  }

  /** The scaled frame: each feature's column. */
  function GitHubFrame(repos: seq<real>, logStars: seq<real>, logForks: seq<real>, commits: seq<real>, cicd: seq<real>)
    : GitHubFeature -> seq<real>
  {
    (f: GitHubFeature) => match f
      case PublicRepos => repos
      case LogStars => logStars
      case LogForks => logForks
      case Commits12m => commits
      case HasCicd => cicd
  }

  /** log1p of stars and forks, then every feature min-max scaled. */
  function GitHubScaled(c: Candidates, log1p: real -> real): GitHubFeature -> seq<real> {
    GitHubFrame(
      MinMaxScale(c.publicRepos),
      MinMaxScale(MapColumn(log1p, c.totalStars)),
      MinMaxScale(MapColumn(log1p, c.totalForks)),
      MinMaxScale(c.commits12m),
      MinMaxScale(c.hasCicd))
  }

  function GitHubScores(c: Candidates, log1p: real -> real, role: Role): seq<real> {
    ScoreColumn(GitHubWeights(role), GitHubScaled(c, log1p), |c.username|)
  }

  /** The score columns of the three roles, in the order of Roles. */
  function GitHubScoreColumns(c: Candidates, log1p: real -> real): (scores: seq<seq<real>>)
    requires WellFormed(c)
    ensures ScoresFit(scores, c.username)
  {
    [GitHubScores(c, log1p, Developer), GitHubScores(c, log1p, SeniorDeveloper),
     GitHubScores(c, log1p, SolutionArchitect)]
  }

  /** One scaled GitHub column: a cell per candidate, each in [0, 1]. */
  lemma GitHubScaledWithinUnit(c: Candidates, log1p: real -> real, f: GitHubFeature)
    requires WellFormed(c)
    ensures |GitHubScaled(c, log1p)(f)| == |c.username|
    ensures forall i :: 0 <= i < |c.username| ==> 0.0 <= GitHubScaled(c, log1p)(f)[i] <= 1.0
  {
    match f
    case PublicRepos => MinMaxWithinUnit(c.publicRepos);
    case LogStars => MinMaxWithinUnit(MapColumn(log1p, c.totalStars));
    case LogForks => MinMaxWithinUnit(MapColumn(log1p, c.totalForks));
    case Commits12m => MinMaxWithinUnit(c.commits12m);
    case HasCicd => MinMaxWithinUnit(c.hasCicd);
  }

  /** Every GitHub score lies in [0, 1], whatever log1p is. */
  lemma GitHubScoresWithinUnit(c: Candidates, log1p: real -> real, role: Role)
    requires WellFormed(c)
    ensures forall i :: 0 <= i < |c.username| ==> 0.0 <= GitHubScores(c, log1p, role)[i] <= 1.0
  {
    var cols := GitHubScaled(c, log1p);
    var terms := GitHubWeights(role);
    forall t | 0 <= t < |terms|
      ensures |cols(terms[t].feature)| == |c.username|
      ensures forall i :: 0 <= i < |c.username| ==> 0.0 <= cols(terms[t].feature)[i] <= 1.0
    {
      GitHubScaledWithinUnit(c, log1p, terms[t].feature);
    }
    ScoreColumnWithinUnit(terms, cols, |c.username|);
  }

  /** The CI/CD status shown: "Integrated" when has_cicd is exactly 1. */
  function CicdStatus(hasCicd: real): string {
    if hasCicd == 1.0 then "Integrated" else "Not Found"
  }

  /** get_github_reason for candidate i. */
  function GitHubReason(role: Role, c: Candidates, i: nat): string
    requires WellFormed(c) && i < |c.username|
  {
    match role
    case Developer =>
      "Selected for high shipping frequency. Contributed " + IntToString(Trunc(c.commits12m[i]))
      + " commits across " + IntToString(Trunc(c.publicRepos[i])) + " repositories."
    case SeniorDeveloper =>
      "Selected for community authority. Work has earned " + IntToString(Trunc(c.totalStars[i]))
      + " stars, indicating industry trust."
    case SolutionArchitect =>
      ForkedHead(c.totalForks[i]) + StatusClause(c.hasCicd[i])
  }

  /** The architect reason up to its CI/CD status clause. */
  function ForkedHead(forks: real): (head: string)
    ensures |head| > 0 && head[|head| - 1] == ' '
  {
    "Selected for architectural reuse. Systems forked " + IntToString(Trunc(forks)) + " times with CI/CD "
  }

  const IntegratedClause: string := "status: Integrated."
  const NotFoundClause: string := "status: Not Found."

  /** The closing clause of the architect reason. */
  function StatusClause(hasCicd: real): (clause: string)
    ensures clause == (if hasCicd == 1.0 then IntegratedClause else NotFoundClause)
  {
    "status: " + CicdStatus(hasCicd) + "."
  }

  /** A head ending in a blank followed by one of the two clauses ends in
      that clause and not in the other. */
  lemma ClauseEnding(head: string, clause: string)
    requires |head| > 0 && head[|head| - 1] == ' '
    requires clause == IntegratedClause || clause == NotFoundClause
    ensures EndsWith(head + clause, IntegratedClause) <==> clause == IntegratedClause
    ensures EndsWith(head + clause, NotFoundClause) <==> clause == NotFoundClause
  {
    var r := head + clause;
    assert r[|head|..] == clause;
    if clause == IntegratedClause {
      assert r[|r| - 18] == 't';
      assert NotFoundClause[0] == 's';
    } else {
      assert r[|r| - 19] == ' ';
      assert IntegratedClause[0] == 's';
    }
  }

  /** The architect reason ends in "status: Integrated." exactly when
      has_cicd is 1, and in "status: Not Found." otherwise. */
  lemma ArchitectStatusShown(c: Candidates, i: nat)
    requires WellFormed(c) && i < |c.username|
    ensures EndsWith(GitHubReason(SolutionArchitect, c, i), IntegratedClause) <==> c.hasCicd[i] == 1.0
    ensures EndsWith(GitHubReason(SolutionArchitect, c, i), NotFoundClause) <==> c.hasCicd[i] != 1.0
  {
    ClauseEnding(ForkedHead(c.totalForks[i]), StatusClause(c.hasCicd[i]));
  }

  /** The reasons of all candidates, by role and candidate index. */
  function GitHubBasis(c: Candidates): (Role, nat) -> string
    requires WellFormed(c)
  {
    (role: Role, i: nat) => if i < |c.username| then GitHubReason(role, c, i) else ""
  }

  /** The whole of analyze_github: None for a missing file; with no row left
      to scale the scaler raises; otherwise one short list per role. */
  function GitHubReport(table: Option<seq<GitHubRow>>, log1p: real -> real): Report {
    if table.None? then Skipped
    else
      var c := Aggregate(table.value);
      if c.username == [] then Raised
      else Ranked(Shortlists(GitHubScoreColumns(c, log1p), c.username, GitHubBasis(c)))
  }

  /** analyze_github step by step: read, group, add the log columns, scale,
      score, and emit the three short lists. */
  method AnalyzeGitHub(table: Option<seq<GitHubRow>>, log1p: real -> real) returns (report: Report)
    ensures report == GitHubReport(table, log1p)
  {
    if table.None? {
      return Skipped;
    }
    var candidates := Aggregate(table.value);
    var logStars := MapColumn(log1p, candidates.totalStars);
    var logForks := MapColumn(log1p, candidates.totalForks);
    if candidates.username == [] {
      return Raised;
    }
    var scaled := GitHubFrame(
      MinMaxScale(candidates.publicRepos), MinMaxScale(logStars), MinMaxScale(logForks),
      MinMaxScale(candidates.commits12m), MinMaxScale(candidates.hasCicd));
    var n := |candidates.username|;
    var developer := ScoreColumn(GitHubWeights(Developer), scaled, n);
    var senior := ScoreColumn(GitHubWeights(SeniorDeveloper), scaled, n);
    var architect := ScoreColumn(GitHubWeights(SolutionArchitect), scaled, n);
    var lists := EmitShortlists([developer, senior, architect], candidates.username, GitHubBasis(candidates));
    report := Ranked(lists);
  }

  /** The candidate table is empty exactly when no row has a username. */
  lemma NoUsernameIff(rows: seq<GitHubRow>)
    ensures Aggregate(rows).username == [] <==> forall i :: 0 <= i < |rows| ==> rows[i].username.None?
  {
    OneCandidatePerUsername(rows);
    var c := Aggregate(rows);
    if c.username == [] {
      forall i | 0 <= i < |rows| ensures rows[i].username.None? {
        assert Usernames(rows)[i] == rows[i].username;
      }
    } else {
      assert Some(c.username[0]) in Usernames(rows);
      var k :| 0 <= k < |rows| && Usernames(rows)[k] == Some(c.username[0]);
      assert rows[k].username.Some?;
    }
  }

  /** Each role's short list is a top selection of distinct usernames of
      the table by its score, each with its reason. */
  lemma GitHubShortlist(rows: seq<GitHubRow>, log1p: real -> real, r: nat)
    requires r < |Roles|
    ensures var c := Aggregate(rows);
      var list := Shortlists(GitHubScoreColumns(c, log1p), c.username, GitHubBasis(c))[r];
      && (exists picked ::
            (IsTopSelection(GitHubScores(c, log1p, Roles[r]), picked, TopCount)
             && ListsRows(list, Roles[r], c.username, GitHubBasis(c), picked)))
      && (forall j :: 0 <= j < |list.entries| ==> Some(list.entries[j].name) in Usernames(rows))
  {
    var c := Aggregate(rows);
    OneCandidatePerUsername(rows);
    var scores := GitHubScoreColumns(c, log1p);
    ShortlistIsTopSelection(Roles[r], scores[r], c.username, GitHubBasis(c));
    var list := Shortlists(scores, c.username, GitHubBasis(c))[r];
    var picked :| IsTopSelection(scores[r], picked, TopCount)
      && ListsRows(list, Roles[r], c.username, GitHubBasis(c), picked);
    forall j | 0 <= j < |list.entries| ensures Some(list.entries[j].name) in Usernames(rows) {
      assert list.entries[j].name == c.username[picked[j]];
    }
  }

  /** A missing file gives no output, a table without any username raises,
      and otherwise every role lists a top selection of distinct usernames
      of the table by its score, each with its reason. */
  lemma GitHubReportOutcome(table: Option<seq<GitHubRow>>, log1p: real -> real, r: nat)
    requires r < |Roles|
    ensures GitHubReport(table, log1p) == Skipped <==> table.None?
    ensures GitHubReport(table, log1p) == Raised
      <==> table.Some? && forall i :: 0 <= i < |table.value| ==> table.value[i].username.None?
    ensures GitHubReport(table, log1p).Ranked? ==>
      var c := Aggregate(table.value);
      var list := GitHubReport(table, log1p).shortlists[r];
      && (exists picked ::
            (IsTopSelection(GitHubScores(c, log1p, Roles[r]), picked, TopCount)
             && ListsRows(list, Roles[r], c.username, GitHubBasis(c), picked)))
      && (forall j :: 0 <= j < |list.entries| ==> Some(list.entries[j].name) in Usernames(table.value))
  {
    if table.Some? {
      var rows := table.value;
      var c := Aggregate(rows);
      NoUsernameIff(rows);
      if c.username != [] {
        assert GitHubReport(table, log1p) == Ranked(Shortlists(GitHubScoreColumns(c, log1p), c.username, GitHubBasis(c)));
        GitHubShortlist(rows, log1p, r);
      }
    }
  }
}
