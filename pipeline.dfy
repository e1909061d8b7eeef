/** The script's entry point: the GitHub, Kaggle and StackOverflow analyses
    run one after the other. A missing input file only skips its own
    analysis; an exception (the scaler raising on an empty table) is not
    caught and ends the run, so the analyses after it produce nothing. */
module Pipeline {
  import opened Options
  import opened Reporting
  import opened GitHubAnalysis
  import opened KaggleAnalysis
  import opened StackOverflowAnalysis

  /** The reports up to and including the first one that raised. */
  function StopAtRaise(reports: seq<Report>): (ran: seq<Report>)
    ensures |ran| <= |reports|
  {
    if reports == [] then []
    else if reports[0] == Raised then [reports[0]]
    else [reports[0]] + StopAtRaise(reports[1..])
  }

  /** What ran is a prefix of the planned reports; none before the last
      raised; and the run is cut short exactly when its last report raised. */
  lemma {:induction false} StopAtRaiseFacts(reports: seq<Report>)
    ensures StopAtRaise(reports) == reports[..|StopAtRaise(reports)|]
    ensures forall i :: 0 <= i < |StopAtRaise(reports)| - 1 ==> StopAtRaise(reports)[i] != Raised
    ensures |StopAtRaise(reports)| < |reports| ==> StopAtRaise(reports)[|StopAtRaise(reports)| - 1] == Raised
    ensures Raised !in reports ==> StopAtRaise(reports) == reports
    ensures reports != [] ==> |StopAtRaise(reports)| >= 1
  {
    if reports != [] && reports[0] != Raised {
      StopAtRaiseFacts(reports[1..]);
      assert reports == [reports[0]] + reports[1..];
    }
  }

  /** The run of three planned reports, one step at a time. */
  lemma StopAtRaiseOfThree(g: Report, k: Report, s: Report)
    ensures g == Raised ==> StopAtRaise([g, k, s]) == [g]
    ensures g != Raised && k == Raised ==> StopAtRaise([g, k, s]) == [g, k]
    ensures g != Raised && k != Raised && s != Raised ==> StopAtRaise([g, k, s]) == [g, k, s]
    ensures g != Raised && k != Raised && s == Raised ==> StopAtRaise([g, k, s]) == [g, k, s]
  {
    assert StopAtRaise([s]) == [s] by {
      assert [s][1..] == [];
    }
    if g != Raised {
      assert [g, k, s][1..] == [k, s];
      if k != Raised {
        assert [k, s][1..] == [s];
        assert StopAtRaise([k, s]) == [k, s];
      }
    }
  }

  /** The reports of the analyses that ran, in order. */
  function RunReports(
    github: Option<seq<GitHubRow>>, kaggle: Option<seq<KaggleRow>>, so: Option<seq<SoRow>>,
    log1p: real -> real, quantile95: seq<real> -> real): seq<Report>
  {
    StopAtRaise([GitHubReport(github, log1p), KaggleReport(kaggle, log1p), SoReport(so, quantile95)])
  }

  /** The three analyses in turn, stopping at an exception. */
  method RunAll(
    github: Option<seq<GitHubRow>>, kaggle: Option<seq<KaggleRow>>, so: Option<seq<SoRow>>,
    log1p: real -> real, quantile95: seq<real> -> real) returns (reports: seq<Report>)
    ensures reports == RunReports(github, kaggle, so, log1p, quantile95)
  {
    var g := AnalyzeGitHub(github, log1p);
    ghost var k' := KaggleReport(kaggle, log1p);
    ghost var s' := SoReport(so, quantile95);
    StopAtRaiseOfThree(g, k', s');
    reports := [g];
    if g == Raised {
      return;
    }
    var k := AnalyzeKaggle(kaggle, log1p);
    reports := reports + [k];
    if k == Raised {
      return;
    }
    var s := AnalyzeStackOverflow(so, quantile95);
    reports := reports + [s];
  }

  /** Only the last analysis that ran can have raised, the run goes on to
      the end when none did, and the GitHub analysis always runs. */
  lemma RunStopsAtFirstRaise(
    github: Option<seq<GitHubRow>>, kaggle: Option<seq<KaggleRow>>, so: Option<seq<SoRow>>,
    log1p: real -> real, quantile95: seq<real> -> real)
    ensures var reports := RunReports(github, kaggle, so, log1p, quantile95);
      && 1 <= |reports| <= 3
      && reports[0] == GitHubReport(github, log1p)
      && (forall i :: 0 <= i < |reports| - 1 ==> reports[i] != Raised)
      && (|reports| < 3 ==> reports[|reports| - 1] == Raised)
  {
    StopAtRaiseFacts([GitHubReport(github, log1p), KaggleReport(kaggle, log1p), SoReport(so, quantile95)]);
  }

  /** Missing files never stop the run: with the GitHub and Kaggle files
      missing, the StackOverflow analysis still runs, and with every file
      missing the run produces no short list at all. */
  lemma MissingFilesDoNotStop(so: Option<seq<SoRow>>, log1p: real -> real, quantile95: seq<real> -> real)
    ensures RunReports(None, None, so, log1p, quantile95) == [Skipped, Skipped, SoReport(so, quantile95)]
    ensures RunReports(None, None, None, log1p, quantile95) == [Skipped, Skipped, Skipped]
  {
    assert GitHubReport(None, log1p) == Skipped;
    assert KaggleReport(None, log1p) == Skipped;
    assert SoReport(None, quantile95) == Skipped;
    StopAtRaiseOfThree(Skipped, Skipped, SoReport(so, quantile95));
    StopAtRaiseOfThree(Skipped, Skipped, Skipped);
  }

  /** An empty GitHub table ends the run before Kaggle and StackOverflow
      are read, whatever their files hold. */
  lemma EmptyGitHubEndsRun(
    kaggle: Option<seq<KaggleRow>>, so: Option<seq<SoRow>>,
    log1p: real -> real, quantile95: seq<real> -> real)
    ensures RunReports(Some([]), kaggle, so, log1p, quantile95) == [Raised]
  {
    GitHubReportOutcome(Some([]), log1p, 0);
  }
}
