/** analyze_kaggle: sizes are converted to megabytes, medals to points and
    missing Usability cells filled with the median; the rows are grouped by
    author, upvotes and sizes are put on a log scale, six columns are
    min-max scaled, three role scores are weighted sums of them, and each
    role lists its top three authors with a reason. */
module KaggleAnalysis {
  import opened Options
  import opened Text
  import opened Decimal
  import opened Stats
  import opened Grouping
  import opened SizeParsing
  import opened Cleaning
  import opened Scaling
  import opened Scoring
  import opened Ranking
  import opened Reporting

  /** One row of the Kaggle table: the columns the analysis reads. Missing
      cells of the text columns and of Usability are None. */
  datatype KaggleRow = KaggleRow(
    authorName: Option<string>,
    datasetName: Option<string>,
    noOfFiles: real,
    upvotes: real,
    usability: Option<real>,
    medals: Option<string>,
    size: string)

  function AuthorNames(rows: seq<KaggleRow>): (col: seq<Option<string>>)
    ensures |col| == |rows| && forall i :: 0 <= i < |rows| ==> col[i] == rows[i].authorName
  {
    seq(|rows|, i requires 0 <= i < |rows| => rows[i].authorName)
  }

  /** Whether each row has a Dataset_name (what count() counts). */
  function DatasetPresent(rows: seq<KaggleRow>): (col: seq<bool>)
    ensures |col| == |rows| && forall i :: 0 <= i < |rows| ==> col[i] == rows[i].datasetName.Some?
  {
    seq(|rows|, i requires 0 <= i < |rows| => rows[i].datasetName.Some?)
  }

  function FilesColumn(rows: seq<KaggleRow>): (col: seq<real>)
    ensures |col| == |rows| && forall i :: 0 <= i < |rows| ==> col[i] == rows[i].noOfFiles
  {
    seq(|rows|, i requires 0 <= i < |rows| => rows[i].noOfFiles)
  }

  function UpvotesColumn(rows: seq<KaggleRow>): (col: seq<real>)
    ensures |col| == |rows| && forall i :: 0 <= i < |rows| ==> col[i] == rows[i].upvotes
  {
    seq(|rows|, i requires 0 <= i < |rows| => rows[i].upvotes)
  }

  function UsabilityColumn(rows: seq<KaggleRow>): (col: seq<Option<real>>)
    ensures |col| == |rows| && forall i :: 0 <= i < |rows| ==> col[i] == rows[i].usability
  {
    seq(|rows|, i requires 0 <= i < |rows| => rows[i].usability)
  }

  /** df['size_mb']: every size text converted to megabytes. */
  function SizeColumn(rows: seq<KaggleRow>): (col: seq<real>)
    ensures |col| == |rows| && forall i :: 0 <= i < |rows| ==> col[i] == StandardizeSizeToMb(rows[i].size)
  {
    seq(|rows|, i requires 0 <= i < |rows| => StandardizeSizeToMb(rows[i].size))
  }

  /** df['medal_points']: every medal mapped to its points, 0 when unknown
      or missing. */
  function MedalColumn(rows: seq<KaggleRow>): (col: seq<real>)
    ensures |col| == |rows| && forall i :: 0 <= i < |rows| ==> col[i] == MedalPoints(rows[i].medals)
  {
    seq(|rows|, i requires 0 <= i < |rows| => MedalPoints(rows[i].medals))
  }

  /** df['Usability'] after fillna(median), read as numbers. The 0.0 stands
      for a cell that stays missing (NaN), which only happens when no row has
      a Usability at all; then only the Senior Developer score is used, and
      it does not read this column (SeniorIgnoresUsability). */
  function FilledUsability(rows: seq<KaggleRow>): (col: seq<real>)
    ensures |col| == |rows|
  {
    var filled := ImputeMedian(UsabilityColumn(rows));
    seq(|rows|, i requires 0 <= i < |rows| => filled[i].GetOr(0.0))
  }

  /** Some row has a Usability, so the median exists and fills every gap. */
  predicate HasUsability(rows: seq<KaggleRow>) {
    Present(UsabilityColumn(rows)) != []
  }

  /** A present Usability is kept; a missing one becomes the median of the
      present ones. */
  lemma UsabilityFilled(rows: seq<KaggleRow>, i: nat)
    requires HasUsability(rows) && i < |rows|
    ensures Median(Present(UsabilityColumn(rows))).Some?
    ensures rows[i].usability.Some? ==> FilledUsability(rows)[i] == rows[i].usability.value
    ensures rows[i].usability.None? ==> FilledUsability(rows)[i] == Median(Present(UsabilityColumn(rows))).value
  {
    var col := UsabilityColumn(rows);
    MedianWithinRange(Present(col));
    if rows[i].usability.None? {
      assert ImputeMedian(col)[i] == Some(Median(Present(col)).value);
    }
  }

  /** The grouped table: one row per author, as columns. */
  datatype Authors = Authors(
    author: seq<string>,
    datasetCount: seq<real>,
    noOfFiles: seq<real>,
    upvotes: seq<real>,
    usability: seq<real>,
    medalPoints: seq<real>,
    sizeMb: seq<real>)

  /** Every column has one cell per author. */
  predicate WellFormed(a: Authors) {
    var n := |a.author|;
    |a.datasetCount| == n && |a.noOfFiles| == n && |a.upvotes| == n
    && |a.usability| == n && |a.medalPoints| == n && |a.sizeMb| == n
  }

  /** groupby('Author_name') over the prepared columns: Dataset_name
      counted, No_of_files, Upvotes, medal_points and size_mb summed and
      Usability averaged. Rows without an author name are dropped. */
  function GroupByAuthor(
    keys: seq<Option<string>>, named: seq<bool>, files: seq<real>, upvotes: seq<real>,
    usability: seq<real>, medals: seq<real>, sizes: seq<real>): (a: Authors)
    requires |named| == |files| == |upvotes| == |usability| == |medals| == |sizes| == |keys|
    ensures WellFormed(a)
  {
    var ks := PresentKeys(keys);
    var ids := Distinct(ks);
    var kept := KeepKeyed(keys, named);
    var means := KeepKeyed(keys, usability);
    Authors(
      ids,
      seq(|ids|, j requires 0 <= j < |ids| => CountWhere(ks, kept, ids[j]) as real),
      GroupTotals(ids, ks, KeepKeyed(keys, files)),
      GroupTotals(ids, ks, KeepKeyed(keys, upvotes)),
      seq(|ids|, j requires 0 <= j < |ids| => MeanWhere(ks, means, ids[j])),
      GroupTotals(ids, ks, KeepKeyed(keys, medals)),
      GroupTotals(ids, ks, KeepKeyed(keys, sizes)))
  }

  /** The author table of the whole pipeline up to the groupby. */
  function Aggregate(rows: seq<KaggleRow>): (a: Authors)
    ensures WellFormed(a)
  {
    GroupByAuthor(AuthorNames(rows), DatasetPresent(rows), FilesColumn(rows), UpvotesColumn(rows),
                  FilledUsability(rows), MedalColumn(rows), SizeColumn(rows))
  }

  /** Exactly one author row per author name that occurs in the table. */
  lemma OneRowPerAuthor(rows: seq<KaggleRow>)
    ensures NoDuplicates(Aggregate(rows).author)
    ensures forall u :: u in Aggregate(rows).author <==> Some(u) in AuthorNames(rows)
  {
    var keys := AuthorNames(rows);
    forall u ensures u in Aggregate(rows).author <==> u in PresentKeys(keys) {
      var ids := Distinct(PresentKeys(keys));
      if u in PresentKeys(keys) {
        var i :| 0 <= i < |PresentKeys(keys)| && PresentKeys(keys)[i] == u;
      }
      if u in ids {
        var j :| 0 <= j < |ids| && ids[j] == u;
      }
    }
    forall u ensures u in PresentKeys(keys) <==> Some(u) in keys {
      PresentKeysMembership(keys, u);
    }
  }

  /** Each author's fields over the author's rows of the whole table: the
      number of those rows with a Dataset_name, the sums, and the mean of
      the filled Usability. */
  lemma AuthorTotals(rows: seq<KaggleRow>, j: nat)
    requires j < |Aggregate(rows).author|
    ensures Some(Aggregate(rows).author[j]) in AuthorNames(rows)
    ensures var a, u := Aggregate(rows), Some(Aggregate(rows).author[j]);
      && a.datasetCount[j] == CountWhere(AuthorNames(rows), DatasetPresent(rows), u) as real
      && a.noOfFiles[j] == SumWhere(AuthorNames(rows), FilesColumn(rows), u)
      && a.upvotes[j] == SumWhere(AuthorNames(rows), UpvotesColumn(rows), u)
      && a.medalPoints[j] == SumWhere(AuthorNames(rows), MedalColumn(rows), u)
      && a.sizeMb[j] == SumWhere(AuthorNames(rows), SizeColumn(rows), u)
      && a.usability[j]
         == SumWhere(AuthorNames(rows), FilledUsability(rows), u) / GroupSize(AuthorNames(rows), u) as real
  {
    var keys := AuthorNames(rows);
    var u := Aggregate(rows).author[j];
    OneRowPerAuthor(rows);
    var present := DatasetPresent(rows);
    DroppingMissingKeys(keys, FilesColumn(rows), present, u);
    DroppingMissingKeys(keys, UpvotesColumn(rows), present, u);
    DroppingMissingKeys(keys, MedalColumn(rows), present, u);
    DroppingMissingKeys(keys, SizeColumn(rows), present, u);
    DroppingMissingKeys(keys, FilledUsability(rows), present, u);
  }

  /** An author with a single row keeps that row's values, and counts 1
      dataset exactly when the row names one. */
  lemma SingleRowAuthor(rows: seq<KaggleRow>, i: nat, j: nat)
    requires i < |rows| && OccursOnlyAt(AuthorNames(rows), i)
    requires j < |Aggregate(rows).author| && Some(Aggregate(rows).author[j]) == rows[i].authorName
    ensures var a := Aggregate(rows);
      && a.datasetCount[j] == (if rows[i].datasetName.Some? then 1.0 else 0.0)
      && a.noOfFiles[j] == rows[i].noOfFiles
      && a.upvotes[j] == rows[i].upvotes
      && a.medalPoints[j] == MedalPoints(rows[i].medals)
      && a.sizeMb[j] == StandardizeSizeToMb(rows[i].size)
      && a.usability[j] == FilledUsability(rows)[i]
  {
    var keys := AuthorNames(rows);
    var present := DatasetPresent(rows);
    AuthorTotals(rows, j);
    SingleRowGroup(keys, FilesColumn(rows), present, i);
    SingleRowGroup(keys, UpvotesColumn(rows), present, i);
    SingleRowGroup(keys, MedalColumn(rows), present, i);
    SingleRowGroup(keys, SizeColumn(rows), present, i);
    SingleRowGroup(keys, FilledUsability(rows), present, i);
  }

  /** The scaled columns the scores read. */
  datatype KaggleFeature = DatasetCount | Files | LogUpvotes | Usability | Medals | LogSize

  /** The weights of each role's score. */
  function KaggleWeights(role: Role): (terms: seq<Term<KaggleFeature>>)
    ensures IsWeightTable(terms)
  {
    match role
    case Developer => [Term(Usability, 0.7), Term(DatasetCount, 0.3)]
    case SeniorDeveloper => [Term(Medals, 0.6), Term(LogUpvotes, 0.4)]
    case SolutionArchitect => [Term(Files, 0.4), Term(LogSize, 0.4), Term(Usability, 0.2)]
  }

  /** The scaled frame: each feature's column. */
  function KaggleFrame(
    datasets: seq<real>, files: seq<real>, logUpvotes: seq<real>,
    usability: seq<real>, medals: seq<real>, logSize: seq<real>)
    : KaggleFeature -> seq<real>
  {
    (f: KaggleFeature) => match f
      case DatasetCount => datasets
      case Files => files
      case LogUpvotes => logUpvotes
      case Usability => usability
      case Medals => medals
      case LogSize => logSize
  }

  /** log1p of upvotes and sizes, then every feature min-max scaled. */
  function KaggleScaled(a: Authors, log1p: real -> real): KaggleFeature -> seq<real> {
    KaggleFrame(
      MinMaxScale(a.datasetCount),
      MinMaxScale(a.noOfFiles),
      MinMaxScale(MapColumn(log1p, a.upvotes)),
      MinMaxScale(a.usability),
      MinMaxScale(a.medalPoints),
      MinMaxScale(MapColumn(log1p, a.sizeMb)))
  }

  function KaggleScores(a: Authors, log1p: real -> real, role: Role): seq<real> {
    ScoreColumn(KaggleWeights(role), KaggleScaled(a, log1p), |a.author|)
  }

  /** The score columns of the three roles, in the order of Roles. */
  function KaggleScoreColumns(a: Authors, log1p: real -> real): (scores: seq<seq<real>>)
    requires WellFormed(a)
    ensures ScoresFit(scores, a.author)
  {
    [KaggleScores(a, log1p, Developer), KaggleScores(a, log1p, SeniorDeveloper),
     KaggleScores(a, log1p, SolutionArchitect)]
  }

  /** One scaled Kaggle column: a cell per author, each in [0, 1]. */
  lemma KaggleScaledWithinUnit(a: Authors, log1p: real -> real, f: KaggleFeature)
    requires WellFormed(a)
    ensures |KaggleScaled(a, log1p)(f)| == |a.author|
    ensures forall i :: 0 <= i < |a.author| ==> 0.0 <= KaggleScaled(a, log1p)(f)[i] <= 1.0
  {
    match f
    case DatasetCount => MinMaxWithinUnit(a.datasetCount);
    case Files => MinMaxWithinUnit(a.noOfFiles);
    case LogUpvotes => MinMaxWithinUnit(MapColumn(log1p, a.upvotes));
    case Usability => MinMaxWithinUnit(a.usability);
    case Medals => MinMaxWithinUnit(a.medalPoints);
    case LogSize => MinMaxWithinUnit(MapColumn(log1p, a.sizeMb));
  }

  /** Every Kaggle score lies in [0, 1], whatever log1p is. */
  lemma KaggleScoresWithinUnit(a: Authors, log1p: real -> real, role: Role)
    requires WellFormed(a)
    ensures forall i :: 0 <= i < |a.author| ==> 0.0 <= KaggleScores(a, log1p, role)[i] <= 1.0
  {
    var cols := KaggleScaled(a, log1p);
    var terms := KaggleWeights(role);
    forall t | 0 <= t < |terms|
      ensures |cols(terms[t].feature)| == |a.author|
      ensures forall i :: 0 <= i < |a.author| ==> 0.0 <= cols(terms[t].feature)[i] <= 1.0
    {
      KaggleScaledWithinUnit(a, log1p, terms[t].feature);
    }
    ScoreColumnWithinUnit(terms, cols, |a.author|);
  }

  /** Sizes above this many megabytes are shown in gigabytes. */
  const GigabyteThreshold: real := 1024.0

  /** The number shown for a size: in gigabytes above the threshold, in
      megabytes otherwise. */
  function SizeValue(sizeMb: real): real {
    if sizeMb > GigabyteThreshold then sizeMb / UnitFactor else sizeMb
  }

  function SizeUnit(sizeMb: real): string {
    if sizeMb > GigabyteThreshold then "GB" else "MB"
  }

  /** The unit is GB exactly above 1024 MB (so exactly 1024 shows as MB),
      and the value shown times its unit's size in megabytes is the size. */
  lemma SizeShown(sizeMb: real)
    ensures SizeUnit(sizeMb) == "GB" <==> sizeMb > 1024.0
    ensures SizeUnit(sizeMb) == "MB" <==> sizeMb <= 1024.0
    ensures SizeValue(sizeMb) * (if SizeUnit(sizeMb) == "GB" then 1024.0 else 1.0) == sizeMb
    ensures ParseFloat(FormatFixed1(SizeValue(sizeMb))) == Some(Rounded1(SizeValue(sizeMb)))
  {
    FormatFixed1RoundTrip(SizeValue(sizeMb));
  }

  const GigabyteEnding: string := "GB of data."
  const MegabyteEnding: string := "MB of data."

  /** The closing words of the architect reason: the unit and " of data.". */
  function UnitTail(sizeMb: real): (tail: string)
    ensures tail == (if sizeMb > GigabyteThreshold then GigabyteEnding else MegabyteEnding)
  {
    SizeUnit(sizeMb) + " of data."
  }

  /** The architect reason up to the unit: the files and the size shown. */
  function ScaleHead(files: real, sizeMb: real): string {
    "Selected for scale mastery. Managed " + IntToString(Trunc(files)) + " files across "
    + FormatFixed1(SizeValue(sizeMb)) + " "
  }

  /** get_kaggle_reason for author i. */
  function KaggleReason(role: Role, a: Authors, i: nat): string
    requires WellFormed(a) && i < |a.author|
  {
    match role
    case Developer =>
      "Selected for high documentation standards. Avg Usability: " + FormatFixed1(a.usability[i])
      + "/10 across " + IntToString(Trunc(a.datasetCount[i])) + " projects."
    case SeniorDeveloper =>
      "Selected for peer vetting. Earned " + IntToString(Trunc(a.medalPoints[i]))
      + " medal points and " + IntToString(Trunc(a.upvotes[i])) + " peer upvotes."
    case SolutionArchitect =>
      ScaleHead(a.noOfFiles[i], a.sizeMb[i]) + UnitTail(a.sizeMb[i])
  }

  /** A text ends in a suffix of the same length as its tail exactly when
      that tail is the suffix. */
  lemma EndingOfTail(head: string, tail: string, suffix: string)
    requires |tail| == |suffix|
    ensures EndsWith(head + tail, suffix) <==> tail == suffix
  {
    assert (head + tail)[|head + tail| - |suffix|..] == tail;
  }

  /** The architect reason ends in "GB of data." exactly when the author's
      total size is above 1024 MB. */
  lemma ArchitectUnitShown(a: Authors, i: nat)
    requires WellFormed(a) && i < |a.author|
    ensures EndsWith(KaggleReason(SolutionArchitect, a, i), GigabyteEnding) <==> a.sizeMb[i] > 1024.0
  {
    assert GigabyteEnding != MegabyteEnding by {
      assert GigabyteEnding[0] != MegabyteEnding[0];
    }
    EndingOfTail(ScaleHead(a.noOfFiles[i], a.sizeMb[i]), UnitTail(a.sizeMb[i]), GigabyteEnding);
  }

  /** The Developer reason shows the author's mean Usability rounded to one
      decimal: read back, it is within 0.05 of the mean. */
  lemma DeveloperUsabilityShown(a: Authors, i: nat)
    requires WellFormed(a) && i < |a.author|
    ensures var r := KaggleReason(Developer, a, i);
      exists shown :: (r == "Selected for high documentation standards. Avg Usability: " + shown
                            + "/10 across " + IntToString(Trunc(a.datasetCount[i])) + " projects."
                       && ParseFloat(shown).Some? && Abs(ParseFloat(shown).value - a.usability[i]) <= 0.05)
  {
    FormatFixed1RoundTrip(a.usability[i]);
    var shown := FormatFixed1(a.usability[i]);
    assert ParseFloat(shown).value == Rounded1(a.usability[i]);
  }

  /** The reasons of all authors, by role and author index. */
  function KaggleBasis(a: Authors): (Role, nat) -> string
    requires WellFormed(a)
  {
    (role: Role, i: nat) => if i < |a.author| then KaggleReason(role, a, i) else ""
  }

  /** The whole of analyze_kaggle: None for a missing file; with no author
      left to scale the scaler raises; with no Usability anywhere the
      Usability column is NaN and so are the Developer and Solution Architect
      scores, while the Senior Developer list is ranked as usual; otherwise
      one short list per role. */
  function KaggleReport(table: Option<seq<KaggleRow>>, log1p: real -> real): Report {
    if table.None? then Skipped
    else
      var a := Aggregate(table.value);
      if a.author == [] then Raised
      else if !HasUsability(table.value) then
        NanScores(ShortlistFor(SeniorDeveloper, KaggleScores(a, log1p, SeniorDeveloper), a.author, KaggleBasis(a)))
      else Ranked(Shortlists(KaggleScoreColumns(a, log1p), a.author, KaggleBasis(a)))
  }

  /** analyze_kaggle step by step: read, convert sizes and medals, fill
      Usability, group, add the log columns, scale, score, and emit the
      three short lists. */
  method AnalyzeKaggle(table: Option<seq<KaggleRow>>, log1p: real -> real) returns (report: Report)
    ensures report == KaggleReport(table, log1p)
  {
    if table.None? {
      return Skipped;
    }
    var rows := table.value;
    var sizeMb := SizeColumn(rows);
    var medalPoints := MedalColumn(rows);
    var usability := FilledUsability(rows);
    var authors := GroupByAuthor(AuthorNames(rows), DatasetPresent(rows), FilesColumn(rows),
                                 UpvotesColumn(rows), usability, medalPoints, sizeMb);
    assert authors == Aggregate(rows);
    var logUpvotes := MapColumn(log1p, authors.upvotes);
    var logSize := MapColumn(log1p, authors.sizeMb);
    if authors.author == [] {
      return Raised;
    }
    var scaled := KaggleFrame(
      MinMaxScale(authors.datasetCount), MinMaxScale(authors.noOfFiles), MinMaxScale(logUpvotes),
      MinMaxScale(authors.usability), MinMaxScale(authors.medalPoints), MinMaxScale(logSize));
    assert scaled == KaggleScaled(authors, log1p);
    var n := |authors.author|;
    var senior := ScoreColumn(KaggleWeights(SeniorDeveloper), scaled, n);
    if !HasUsability(rows) {
      return NanScores(ShortlistFor(SeniorDeveloper, senior, authors.author, KaggleBasis(authors)));
    }
    var developer := ScoreColumn(KaggleWeights(Developer), scaled, n);
    var architect := ScoreColumn(KaggleWeights(SolutionArchitect), scaled, n);
    assert [developer, senior, architect] == KaggleScoreColumns(authors, log1p);
    var lists := EmitShortlists([developer, senior, architect], authors.author, KaggleBasis(authors));
    report := Ranked(lists);
  }

  /** Some row has a Usability exactly when the filled column exists. */
  lemma HasUsabilityIff(rows: seq<KaggleRow>)
    ensures HasUsability(rows) <==> exists i :: 0 <= i < |rows| && rows[i].usability.Some?
  {
    var col := UsabilityColumn(rows);
    if HasUsability(rows) {
      var v := Present(col)[0];
      assert Some(v) in col;
    }
    if exists i :: 0 <= i < |rows| && rows[i].usability.Some? {
      var i :| 0 <= i < |rows| && rows[i].usability.Some?;
      assert col[i].Some?;
    }
  }

  /** The author table is empty exactly when no row has an author name. */
  lemma NoAuthorIff(rows: seq<KaggleRow>)
    ensures Aggregate(rows).author == [] <==> forall i :: 0 <= i < |rows| ==> rows[i].authorName.None?
  {
    OneRowPerAuthor(rows);
    var a := Aggregate(rows);
    if a.author == [] {
      forall i | 0 <= i < |rows| ensures rows[i].authorName.None? {
        assert AuthorNames(rows)[i] == rows[i].authorName;
      }
    } else {
      assert Some(a.author[0]) in AuthorNames(rows);
      var k :| 0 <= k < |rows| && AuthorNames(rows)[k] == Some(a.author[0]);
      assert rows[k].authorName.Some?;
    }
  }

  /** Each role's short list is a top selection of distinct authors of the
      table by its score, each with its reason. */
  lemma KaggleShortlist(rows: seq<KaggleRow>, log1p: real -> real, r: nat)
    requires r < |Roles|
    ensures var a := Aggregate(rows);
      var list := Shortlists(KaggleScoreColumns(a, log1p), a.author, KaggleBasis(a))[r];
      && (exists picked ::
            (IsTopSelection(KaggleScores(a, log1p, Roles[r]), picked, TopCount)
             && ListsRows(list, Roles[r], a.author, KaggleBasis(a), picked)))
      && (forall j :: 0 <= j < |list.entries| ==> Some(list.entries[j].name) in AuthorNames(rows))
  {
    var a := Aggregate(rows);
    OneRowPerAuthor(rows);
    var scores := KaggleScoreColumns(a, log1p);
    ShortlistIsTopSelection(Roles[r], scores[r], a.author, KaggleBasis(a));
    var list := Shortlists(scores, a.author, KaggleBasis(a))[r];
    var picked :| IsTopSelection(scores[r], picked, TopCount)
      && ListsRows(list, Roles[r], a.author, KaggleBasis(a), picked);
    forall j | 0 <= j < |list.entries| ensures Some(list.entries[j].name) in AuthorNames(rows) {
      assert list.entries[j].name == a.author[picked[j]];
    }
  }

  /** The Senior Developer list: a top selection of distinct authors of the
      table by the Senior Developer score, each with its reason. */
  lemma KaggleSeniorShortlist(rows: seq<KaggleRow>, log1p: real -> real)
    ensures var a := Aggregate(rows);
      var list := ShortlistFor(SeniorDeveloper, KaggleScores(a, log1p, SeniorDeveloper), a.author, KaggleBasis(a));
      && (exists picked ::
            (IsTopSelection(KaggleScores(a, log1p, SeniorDeveloper), picked, TopCount)
             && ListsRows(list, SeniorDeveloper, a.author, KaggleBasis(a), picked)))
      && (forall j :: 0 <= j < |list.entries| ==> Some(list.entries[j].name) in AuthorNames(rows))
  {
    var a := Aggregate(rows);
    OneRowPerAuthor(rows);
    var scores := KaggleScores(a, log1p, SeniorDeveloper);
    ShortlistIsTopSelection(SeniorDeveloper, scores, a.author, KaggleBasis(a));
    var list := ShortlistFor(SeniorDeveloper, scores, a.author, KaggleBasis(a));
    var picked :| IsTopSelection(scores, picked, TopCount)
      && ListsRows(list, SeniorDeveloper, a.author, KaggleBasis(a), picked);
    forall j | 0 <= j < |list.entries| ensures Some(list.entries[j].name) in AuthorNames(rows) {
      assert list.entries[j].name == a.author[picked[j]];
    }
  }

  /** The Senior Developer score reads only medal points and upvotes. */
  lemma SeniorScoreIgnoresUsability(a: Authors, log1p: real -> real, usability: seq<real>)
    ensures KaggleScores(a.(usability := usability), log1p, SeniorDeveloper) == KaggleScores(a, log1p, SeniorDeveloper)
  {
    var b := a.(usability := usability);
    var terms := KaggleWeights(SeniorDeveloper);
    var fb, fa := KaggleScaled(b, log1p), KaggleScaled(a, log1p);
    assert terms == [Term(Medals, 0.6), Term(LogUpvotes, 0.4)];
    assert fb(Medals) == fa(Medals) && fb(LogUpvotes) == fa(LogUpvotes);
    forall t | 0 <= t < |terms| ensures fb(terms[t].feature) == fa(terms[t].feature) {
    }
    ScoreColumnReadsOnlyItsFeatures(terms, fb, fa, |a.author|);
  }

  /** The Senior Developer score and reason read only medal points and
      upvotes: whatever the Usability column holds (NaN when no row has one),
      they stay the same. */
  lemma SeniorIgnoresUsability(a: Authors, log1p: real -> real, usability: seq<real>)
    requires WellFormed(a) && |usability| == |a.author|
    ensures KaggleScores(a.(usability := usability), log1p, SeniorDeveloper) == KaggleScores(a, log1p, SeniorDeveloper)
    ensures forall i :: 0 <= i < |a.author| ==>
      KaggleReason(SeniorDeveloper, a.(usability := usability), i) == KaggleReason(SeniorDeveloper, a, i)
  {
    SeniorScoreIgnoresUsability(a, log1p, usability);
    var b := a.(usability := usability);
    assert b.medalPoints == a.medalPoints && b.upvotes == a.upvotes;
  }

  /** A missing file gives no output, a table without any author name
      raises, a table without any Usability gives NaN scores for Developer
      and Solution Architect but still lists the Senior Developer top
      selection, and otherwise
      every role lists a top selection of distinct authors of the table by
      its score, each with its reason. */
  lemma KaggleReportOutcome(table: Option<seq<KaggleRow>>, log1p: real -> real, r: nat)
    requires r < |Roles|
    ensures KaggleReport(table, log1p) == Skipped <==> table.None?
    ensures KaggleReport(table, log1p) == Raised
      <==> table.Some? && forall i :: 0 <= i < |table.value| ==> table.value[i].authorName.None?
    ensures KaggleReport(table, log1p).NanScores?
      <==> (table.Some? && (exists i :: 0 <= i < |table.value| && table.value[i].authorName.Some?)
            && forall i :: 0 <= i < |table.value| ==> table.value[i].usability.None?)
    ensures KaggleReport(table, log1p).NanScores? ==>
      var a := Aggregate(table.value);
      var list := KaggleReport(table, log1p).senior;
      && (exists picked ::
            (IsTopSelection(KaggleScores(a, log1p, SeniorDeveloper), picked, TopCount)
             && ListsRows(list, SeniorDeveloper, a.author, KaggleBasis(a), picked)))
      && (forall j :: 0 <= j < |list.entries| ==> Some(list.entries[j].name) in AuthorNames(table.value))
    ensures KaggleReport(table, log1p).Ranked? ==>
      var a := Aggregate(table.value);
      var list := KaggleReport(table, log1p).shortlists[r];
      && (exists picked ::
            (IsTopSelection(KaggleScores(a, log1p, Roles[r]), picked, TopCount)
             && ListsRows(list, Roles[r], a.author, KaggleBasis(a), picked)))
      && (forall j :: 0 <= j < |list.entries| ==> Some(list.entries[j].name) in AuthorNames(table.value))
  {
    if table.Some? {
      var rows := table.value;
      var a := Aggregate(rows);
      HasUsabilityIff(rows);
      NoAuthorIff(rows);
      if a.author != [] && HasUsability(rows) {
        assert KaggleReport(table, log1p) == Ranked(Shortlists(KaggleScoreColumns(a, log1p), a.author, KaggleBasis(a)));
        KaggleShortlist(rows, log1p, r);
      } else if a.author != [] {
        KaggleSeniorShortlist(rows, log1p);
      }
    }
  }
}
