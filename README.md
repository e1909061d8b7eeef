# Hush Hush recruiter scoring pipelines in Dafny

This project models the candidate-scoring script `main.py`. The script reads three tables of candidate records: GitHub profiles, Kaggle datasets and StackOverflow users. For each one it produces, for three hiring roles (Developer, Senior Developer, Solution Architect), a ranked short list of the top three candidates with a one-line reason each. Each source goes through the same stages:

1. Cleaning: strip text, convert dataset sizes to megabytes, map medals to points, fill missing values.
2. Aggregation to one row per candidate. GitHub groups by `username`, Kaggle by `Author_name`, and StackOverflow has no grouping.
3. Outlier handling. GitHub and Kaggle use `log1p`; StackOverflow caps three columns at their 95th percentile.
4. Feature engineering: tag breadth and architecture keyword count.
5. Min-max scaling of a fixed set of columns.
6. Weighted scores per role.
7. A stable top-3 selection per role.
8. The reason text of each selected candidate.

The entry point runs the three analyses in order.

Module layout, following the script:

- `Options`, `Text`, `Decimal`: Python-like helpers.
  - `Option`.
  - Strings: `upper`, `lower`, `strip`, `in`, `replace`, `split`.
  - `float()` on plain decimal text, `int()` truncation, and the `.1f` / `.0%` formats.
- `Stats`: sum, minimum, maximum and median of a column.
- `SizeParsing`: `standardize_size_to_mb`.
- `Cleaning`:
  - the medal lookup table;
  - `fillna(median)`;
  - the default tag text `"general"`.
- `Grouping`: `groupby(...).agg(...)` with `sum`, `max`, `mean` and `count`. Rows whose key is missing are dropped, as pandas does.
- `Outliers`: `np.where(col > limit, limit, col)`.
- `TagFeatures`: `tag_breadth` and `arch_keywords_count`.
- `Scaling`: `MinMaxScaler().fit_transform`, column by column.
- `Scoring`: the roles, weight tables, weighted sums and score columns.
- `Ranking`: `sort_values(ascending=False).head(k)`.
- `Reporting`: the short lists and the output loops over roles and entries.
- `GitHubAnalysis`, `KaggleAnalysis`, `StackOverflowAnalysis`: the three pipelines.
  - Each one is a method (`AnalyzeGitHub`, `AnalyzeKaggle`, `AnalyzeStackOverflow`).
  - Each method's contract equates its result to a specification function (`GitHubReport`, `KaggleReport`, `SoReport`), and the lemmas beside it state what that function promises.
- `Pipeline`: the `__main__` block.

The outcome of one analysis is a `Report`:

- `Skipped` when the input file is missing.
- `Raised` when the scaler raises on an empty table, which ends the whole run.
- `NanScores` when every Kaggle `Usability` cell is missing. The Developer and Solution Architect scores read `Usability`, so they are NaN. The report holds the Senior Developer list, whose score does not read `Usability`.
- `Ranked` otherwise, with one short list per role.

## Model

| member | source | states |
|---|---|---|
| SizeParsing.GigabytesScaleUp | main.py:89-91 | a number followed by "GB" in any letter case, with or without blanks between them ("1.5 GB"), is that many gigabytes: the number times 1024 MB |
| SizeParsing.KilobytesScaleDown | main.py:89-92 | a number followed by "KB" in any case, with or without blanks between them, is the number divided by 1024; the GB branch comes first |
| SizeParsing.MegabytesTakeTheByteBranch | main.py:93-94 | a number followed by "MB", with or without blanks between them, contains a 'B', so the byte test catches it and it becomes 0.01, as the code is written |
| SizeParsing.BareNumberIsMegabytes | main.py:94 | a bare number is read as megabytes unchanged |
| SizeParsing.MegabyteRemovalIsDead | main.py:93-94 | the last branch only sees texts without a 'B', so removing "MB" there never changes anything |
| SizeParsing.Fallbacks | main.py:91-95 | float() rejecting the text left after removing "GB", after removing "KB", or in the plain branch gives 0.0 instead of raising; any 'B' without GB or KB gives the 0.01 byte size |
| SizeParsing.SizeIgnoresCase | main.py:89 | the size text is upper-cased first, so upper- or lower-casing it beforehand changes nothing |
| SizeParsing.UpperNumberWithUnit | main.py:89 | upper-casing a number, blanks and a unit keeps the number and blanks and upper-cases the unit; the number and blanks hold no G, K, M or B |
| SizeParsing.NumberTextIsPlain | main.py:91-94 | text float() accepts is non-empty and holds no letter and no white space |
| SizeParsing.StandardizeSizeToMb | main.py:88-95 | standardize_size_to_mb; it has no contract of its own: its behaviour is stated by GigabytesScaleUp, KilobytesScaleDown, MegabytesTakeTheByteBranch, BareNumberIsMegabytes, Fallbacks and SizeIgnoresCase |
| SizeParsing.ExampleGigabytes | main.py:89-91 | "2GB" and "2gb" are 2048 MB |
| SizeParsing.ExampleKilobytes | main.py:92 | "512KB" is 0.5 MB |
| SizeParsing.ExampleMegabytes | main.py:93-94 | "5MB" is 0.01 (the byte branch) and "7" is 7 MB |
| SizeParsing.ExampleBytes | main.py:93 | "10B" is 0.01 MB |
| SizeParsing.ExampleUnparseable | main.py:95 | "N/A" is 0.0 |
| Cleaning.MedalPoints | main.py:100-101 | points are 0, 1, 3 or 5, and are positive exactly for Gold, Silver and Bronze |
| Cleaning.MedalPointsOrder | main.py:100-101 | Gold > Silver > Bronze > No Medal; an unknown label and a missing cell both count 0 |
| Cleaning.Present | main.py:102 | the values median() sees are exactly the present cells; with PresentPositions, once per present cell and in column order |
| Cleaning.PresentPositions | main.py:102 | one position per value median() sees, each a position of the column |
| Cleaning.PresentPositionsHoldValues | main.py:102 | the k-th value median() sees is the cell at the k-th listed position, so a value held by several cells is seen once per cell |
| Cleaning.PresentPositionsAscend | main.py:102 | the listed positions rise strictly, so the values are seen in column order, each cell at most once |
| Cleaning.PresentPositionsCover | main.py:102 | every present cell's position is listed, so no present value is skipped |
| Cleaning.ImputeMedian | main.py:102 | present cells are kept; once any value is present every cell is filled, within the range of the present values; with none present the column is unchanged |
| Cleaning.ImputedCellsShareTheMedian | main.py:102 | every missing cell gets the same value, the median of the present ones |
| Cleaning.FillTags | main.py:169 | a present tag text is kept and a missing one becomes "general" |
| Text.StripBounds | main.py:91-94 | strip() keeps one slice of the text and cuts only white space before and after it |
| Text.StripCutsOnlySpace | main.py:91-94 | strip() returns a contiguous slice of the text, removing only spaces, and leaves no space at either end |
| Text.StripIdempotent | main.py:91-94 | stripping twice is stripping once |
| Text.StripTrailingGap | main.py:91-94 | strip() removes the blanks left between a number and a removed unit, giving back the number text |
| Text.ToUpper | main.py:89 | upper() keeps the length, leaves no lower-case letter, leaves every other character in place, and turns each lower-case letter into the upper-case letter at the same place in the alphabet |
| Text.ToLower | main.py:180 | lower() keeps the length, leaves no upper-case letter, leaves every other character in place, and turns each upper-case letter into the lower-case letter at the same place in the alphabet |
| Text.CaseRoundTrips | main.py:89 | lower(upper(s)) == lower(s) and upper(lower(s)) == upper(s), and each case mapping is idempotent |
| Text.ContainsIffOccurs | main.py:91-93 | `p in s` holds exactly when p occurs at some position of s |
| Text.RemoveAbsent | main.py:91-94 | replace() of a substring that does not occur leaves the text unchanged |
| Text.Split | main.py:178 | split(',') yields at least one part |
| Text.SplitCount | main.py:178 | split gives one more part than there are separators |
| Text.SplitJoin | main.py:178 | the parts contain no separator and joined back give the text |
| Stats.Min | main.py:38-40 | the minimum is a value of the column and at most every value |
| Stats.Max | main.py:38-40 | the maximum is a value of the column and at least every value |
| Stats.SortAscending | main.py:102 | the sorted column median() works on is sorted and a permutation of the column |
| Stats.SortedWithinRange | main.py:102 | every sorted value lies between the minimum and the maximum |
| Stats.MedianWithinRange | main.py:102 | the median exists exactly when some value is present, and lies between their minimum and maximum |
| Stats.MedianOfOne | main.py:102 | the median of one value is that value |
| Stats.Median | main.py:102 | median(); it has no contract of its own: MedianWithinRange and MedianOfOne state its properties |
| Grouping.Distinct | main.py:25-31 | the group keys: every row's key appears, no key appears twice, nothing else appears |
| Grouping.GroupSize | main.py:104-111 | a key has a positive row count exactly when it occurs |
| Grouping.CountWhere | main.py:105 | count() of a group is at most the group's row count, and equals it when no cell is missing |
| Grouping.SumWhereBounds | main.py:106-110 | a group's sum lies between its row count times a lower bound and times an upper bound of its values |
| Grouping.MeanWithinGroup | main.py:108 | the mean of a group whose values lie in [lo, hi] lies in [lo, hi] |
| Grouping.SumWhere | main.py:106-110 | sum() of a group; no contract of its own: SumIsConserved, GroupTotalsConserve, SumWhereBounds, SingleRowGroup and AbsentKey state its properties |
| Grouping.MeanWhere | main.py:108 | mean() of a group; no contract of its own: MeanWithinGroup and SingleRowGroup state its properties |
| Grouping.MaxWhere | main.py:30 | the max of a group is one of its values and at least every value of the group |
| Grouping.SingleRowGroup | main.py:25-31 | a group of one row passes through sum, max, mean and count unchanged |
| Grouping.AbsentKey | main.py:25-31 | a key with no row has sum 0 and count 0 |
| Grouping.GroupTotals | main.py:25-29 | one total per group key |
| Grouping.GroupTotalsConserve | main.py:25-29 | the group sums add up to the column total |
| Grouping.SumIsConserved | main.py:25-29 | summing by group keeps the column total |
| Grouping.GroupSizesAddUp | main.py:104-111 | the group sizes add up to the number of rows |
| Grouping.PresentKeys | main.py:25 | the keys left after rows with a missing key are dropped |
| Grouping.KeepKeyed | main.py:25 | the values of the rows that keep their key |
| Grouping.PresentKeysMembership | main.py:25 | a key survives the dropping exactly when some row has it |
| Grouping.DroppingMissingKeys | main.py:25-31 | group sum, size and count over the kept rows equal those over the whole table |
| Grouping.DroppingMissingKeysMax | main.py:30 | the same for the group max |
| Outliers.Cap | main.py:175 | the capped column has the same length, and each value is the smaller of itself and the limit |
| Outliers.CapBounds | main.py:175 | no value exceeds the limit or grows; a value at or below the limit is kept, and one above becomes the limit |
| Outliers.CapKeepsOrder | main.py:175 | capping never inverts the order of two values |
| Outliers.CapIdempotent | main.py:175 | capping twice at a limit is capping once |
| Outliers.CapAboveMaximum | main.py:174-175 | a limit at or above the maximum leaves the column unchanged |
| TagFeatures.TagBreadth | main.py:178 | tag_breadth; no contract of its own: TagBreadthCountsCommas, ThreeTags and ExampleBreadth state its properties |
| TagFeatures.TagBreadthCountsCommas | main.py:178 | breadth is the number of commas plus one, so at least 1 |
| TagFeatures.ArchKeywordsCount | main.py:179-180 | arch_keywords_count; no contract of its own: ArchKeywordsCountRange, MatchCountIsDistinctMatches, KeywordCountIgnoresCase and MoreTagsNeverLowerTheCount state its properties |
| TagFeatures.MatchCount | main.py:180 | the count never exceeds the number of keywords |
| TagFeatures.MatchCountIsDistinctMatches | main.py:180 | with distinct keywords, the count is the number of distinct keywords found in the text |
| TagFeatures.ArchKeywordsCountRange | main.py:179-180 | the keyword count is the number of vocabulary terms found in the lower-cased tags, from 0 to 7 |
| TagFeatures.MatchCountMonotone | main.py:180 | a text that holds every term another holds has at least its count |
| TagFeatures.MoreTagsNeverLowerTheCount | main.py:179-180 | appending tags never lowers the keyword count |
| TagFeatures.NoMatchCountsZero | main.py:180 | no term found counts 0 |
| TagFeatures.MissingTagsFeatures | main.py:169-180 | a missing tag cell ("general") has breadth 1 and keyword count 0 |
| TagFeatures.ThreeTags | main.py:178 | three comma-free tags joined by commas have breadth 3 |
| TagFeatures.ExampleBreadth | main.py:178 | "aws,kubernetes,general-stuff" has breadth 3 |
| TagFeatures.ExampleHits | main.py:180 | that example contains "aws" and "kubernetes" |
| TagFeatures.ExampleMisses | main.py:180 | that example contains none of the last four terms |
| TagFeatures.ExampleKeywordCount | main.py:179-180 | that example counts 2 ("general-stuff" matches nothing) |
| TagFeatures.KeywordCountIgnoresCase | main.py:180 | the tags are lower-cased first, so the count ignores letter case |
| TagFeatures.CapitalisedTagsLowered | main.py:180 | "AWS,Kubernetes,General-Stuff" lower-cases to the example above |
| TagFeatures.CapitalisedTagsCount | main.py:179-180 | "AWS,Kubernetes,General-Stuff" counts 2, like its lower-case form |
| Scaling.Spread | main.py:38-40 | the divisor is positive whenever min <= max: the range, or 1 for a constant column |
| Scaling.MinMaxScale | main.py:38-41 | scaling keeps the column length |
| Scaling.ScaleValueFacts | main.py:38-40 | a value in [min, max] scales into [0, 1], keeps its order, and sends min to 0 and max to 1 |
| Scaling.ScaledAt | main.py:38-41 | each scaled cell is (x - min) / spread, lies in [0, 1] and keeps order |
| Scaling.MinMaxWithinUnit | main.py:38-41 | every scaled value lies in [0, 1] |
| Scaling.MinMaxEndpoints | main.py:38-41 | in a column that is not constant, the minimum goes to 0 and the maximum to 1, and both are reached |
| Scaling.ConstantColumnScalesToZero | main.py:38-41 | a constant column scales to all zeros; the zero range is replaced by 1 |
| Scaling.MinMaxKeepsOrder | main.py:38-41 | scaling keeps order, in both directions when the column is not constant |
| Scaling.ScaleValueInverse | main.py:38-40 | the inverse transform min + s * (max - min) undoes scaling |
| Scaling.MinMaxInverse | main.py:38-41 | no scaled value loses information: the inverse transform recovers it |
| Scaling.MapColumn | main.py:34-35 | log1p is applied to each cell of the column |
| Scaling.MonotoneThenScale | main.py:34-40 | a non-decreasing transform such as log1p, followed by scaling, keeps the order of the raw values |
| Scoring.RolesListed | main.py:62-64 | every role is listed once, and distinct roles have distinct labels (RoleName) |
| Scoring.WeightedSumBounds | main.py:44-46 | with non-negative weights and values in [0, 1], the sum lies between 0 and the total weight |
| Scoring.WeightedSumMonotone | main.py:44-46 | raising a feature never lowers the score |
| Scoring.ScoreWithinUnit | main.py:44-46 | under weights that sum to 1, a score lies in [0, 1] |
| Scoring.ScoreExtremes | main.py:44-46 | a candidate scaled to 1 on every feature scores the total weight, and one scaled to 0 scores 0 |
| Scoring.ScoreColumn | main.py:44-46 | one score per candidate |
| Scoring.WeightedSumReadsOnlyItsFeatures | main.py:44-46 | a score reads only the features of its weight table: valuations that agree there give the same score |
| Scoring.ScoreColumnReadsOnlyItsFeatures | main.py:44-46 | a score column is unchanged by any column its weight table does not name |
| Scoring.ScoreColumnWithinUnit | main.py:44-46 | scaled columns give score columns in [0, 1] |
| Ranking.InsertRanked | main.py:68 | inserting a row keeps the order ranked and adds exactly that row |
| Ranking.RankFirst | main.py:68 | the first m rows in ranked order, each once |
| Ranking.RankOrder | main.py:68 | every row once, higher scores first, ties by row order |
| Ranking.TopK | main.py:68 | head(k) gives min(k, n) rows of the table |
| Ranking.TopKIsTopSelection | main.py:68 | the selection has distinct rows, non-increasing scores, and no row left out scores above a row taken |
| Ranking.TopKTakesAllWhenFew | main.py:68 | with k at least the row count, every row is taken |
| Ranking.TopKStableTies | main.py:68 | (a strengthening) among equal scores the earlier row comes first |
| Reporting.ShortlistIsTopSelection | main.py:66-71 | a short list ranks its entries from 1 and shows a top selection of rows, each with its name and reason |
| Reporting.Shortlists | main.py:62-71 | one short list per role, in role order |
| Reporting.EmitShortlists | main.py:66-71 | the output loops over roles and entries build exactly the short lists |
| GitHubAnalysis.Aggregate | main.py:25-31 | the grouped table has one cell per candidate in every column |
| GitHubAnalysis.OneCandidatePerUsername | main.py:25-31 | exactly one candidate per username present in the table |
| GitHubAnalysis.CandidateTotals | main.py:25-31 | a candidate's repos, stars, forks and commits are sums over its rows, and has_cicd is their max |
| GitHubAnalysis.SingleRowCandidate | main.py:25-31 | a username with one row keeps that row's values |
| GitHubAnalysis.GitHubWeights | main.py:44-46 | each role's weights are non-negative and sum to 1 |
| GitHubAnalysis.GitHubScoreColumns | main.py:44-46 | three score columns, one cell per candidate |
| GitHubAnalysis.GitHubScaledWithinUnit | main.py:34-41 | every scaled GitHub column lies in [0, 1] |
| GitHubAnalysis.GitHubScoresWithinUnit | main.py:34-46 | every GitHub score lies in [0, 1], whatever log1p is |
| GitHubAnalysis.ForkedHead | main.py:58-59 | the architect reason's head ends in a space before the status clause |
| GitHubAnalysis.StatusClause | main.py:57-59 | the status clause is "status: Integrated." when has_cicd == 1, and "status: Not Found." otherwise |
| GitHubAnalysis.ArchitectStatusShown | main.py:56-59 | the architect reason ends with "status: Integrated." exactly when has_cicd == 1 |
| GitHubAnalysis.AnalyzeGitHub | main.py:10-72 | the step-by-step analysis produces the specification report |
| GitHubAnalysis.NoUsernameIff | main.py:25-40 | there are no candidates exactly when no row has a username |
| GitHubAnalysis.GitHubShortlist | main.py:66-71 | each role lists a top selection of usernames from the table, with reasons |
| GitHubAnalysis.GitHubReportOutcome | main.py:10-72 | missing file gives Skipped; no usernames gives Raised; otherwise ranked top selections |
| GitHubAnalysis.GitHubReason | main.py:49-59 | get_reason; no contract of its own: ForkedHead, StatusClause and ArchitectStatusShown state its properties |
| GitHubAnalysis.GitHubReport | main.py:10-72 | the GitHub report; no contract of its own: GitHubReportOutcome states it, and AnalyzeGitHub computes it |
| KaggleAnalysis.SizeColumn | main.py:97 | size_mb is the parsed size of each row |
| KaggleAnalysis.MedalColumn | main.py:101 | medal_points is the looked-up points of each row |
| KaggleAnalysis.UsabilityFilled | main.py:102 | a present Usability is kept, and a missing one becomes the median |
| KaggleAnalysis.GroupByAuthor | main.py:104-111 | one cell per author in every aggregated column |
| KaggleAnalysis.Aggregate | main.py:97-111 | the author table built from the prepared columns |
| KaggleAnalysis.OneRowPerAuthor | main.py:104-111 | exactly one row per author name present in the table |
| KaggleAnalysis.AuthorTotals | main.py:104-111 | the dataset count is the author's rows with a Dataset_name; files, upvotes, medals and size are sums; Usability is the mean |
| KaggleAnalysis.SingleRowAuthor | main.py:104-111 | an author with one row keeps its values and counts 1 dataset if named |
| KaggleAnalysis.KaggleWeights | main.py:123-125 | each role's weights are non-negative and sum to 1 |
| KaggleAnalysis.KaggleScoreColumns | main.py:123-125 | three score columns, one cell per author |
| KaggleAnalysis.KaggleScaledWithinUnit | main.py:114-120 | every scaled Kaggle column lies in [0, 1] |
| KaggleAnalysis.KaggleScoresWithinUnit | main.py:114-125 | every Kaggle score lies in [0, 1] |
| KaggleAnalysis.SizeShown | main.py:136-137 | the unit is GB exactly above 1024 MB, so exactly 1024 shows MB; the value times its unit is the size; the digits read back as the rounded value |
| KaggleAnalysis.UnitTail | main.py:137-139 | the reason ends "GB of data." above 1024 MB and "MB of data." otherwise |
| KaggleAnalysis.ArchitectUnitShown | main.py:136-139 | the architect reason ends "GB of data." exactly when size_mb > 1024 |
| KaggleAnalysis.DeveloperUsabilityShown | main.py:130-131 | the Usability shown reads back within 0.05 of the mean |
| KaggleAnalysis.AnalyzeKaggle | main.py:76-152 | the step-by-step analysis produces the specification report |
| KaggleAnalysis.HasUsabilityIff | main.py:102 | the median exists exactly when some row has a Usability |
| KaggleAnalysis.NoAuthorIff | main.py:104-120 | there are no authors exactly when no row has an author name |
| KaggleAnalysis.KaggleShortlist | main.py:146-151 | each role lists a top selection of author names from the table, with reasons |
| KaggleAnalysis.KaggleReportOutcome | main.py:76-152 | missing file gives Skipped; no author gives Raised; authors but no Usability at all gives NanScores, which still holds the Senior Developer list as a top selection of authors of the table; otherwise ranked top selections |
| KaggleAnalysis.KaggleSeniorShortlist | main.py:146-151 | the Senior Developer list is a top selection by its score, naming authors of the table with their reasons |
| KaggleAnalysis.SeniorScoreIgnoresUsability | main.py:124 | the Senior Developer score column is the same whatever the Usability column holds |
| KaggleAnalysis.SeniorIgnoresUsability | main.py:123-134 | the Senior Developer scores and reasons are the same whatever the Usability column holds |
| KaggleAnalysis.KaggleReason | main.py:128-139 | get_kaggle_reason; no contract of its own: SizeShown, UnitTail, ArchitectUnitShown and DeveloperUsabilityShown state its properties |
| KaggleAnalysis.KaggleReport | main.py:76-152 | the Kaggle report; no contract of its own: KaggleReportOutcome states it, and AnalyzeKaggle computes it |
| StackOverflowAnalysis.TagsColumn | main.py:169 | each tag text, with "general" for a missing one |
| StackOverflowAnalysis.CappedColumns | main.py:172-175 | every column is capped at the limit computed from that column |
| StackOverflowAnalysis.CapOutliers | main.py:172-175 | the capping loop, column by column, gives exactly the capped columns |
| StackOverflowAnalysis.CappedColumnsBounds | main.py:173-175 | after capping, values stay at or below the limit, values at or below it are kept, the rest become it, and lengths are kept |
| StackOverflowAnalysis.BreadthColumn | main.py:178 | each row's tag breadth |
| StackOverflowAnalysis.ArchCountColumn | main.py:179-180 | each row's keyword count |
| StackOverflowAnalysis.Prepare | main.py:168-180 | one cell per user in every prepared column |
| StackOverflowAnalysis.PreparedRow | main.py:168-180 | reputation and averages are capped; ratio is raw; tags are filled; breadth is commas + 1; keyword count is at most 7 |
| StackOverflowAnalysis.SoWeights | main.py:188-190 | each role's weights are non-negative and sum to 1 |
| StackOverflowAnalysis.SoScoreColumns | main.py:188-190 | three score columns, one cell per user |
| StackOverflowAnalysis.SoScaledWithinUnit | main.py:183-185 | every scaled StackOverflow column lies in [0, 1] |
| StackOverflowAnalysis.SoScoresWithinUnit | main.py:183-190 | every StackOverflow score lies in [0, 1] |
| StackOverflowAnalysis.ArchitectShowsAllTags | main.py:199-200 | the architect reason ends with the whole tag text, and the breadth shown reads back as the breadth |
| StackOverflowAnalysis.MissingTagsReason | main.py:169-200 | a user without tags is described with 1 domain and the tags "general" |
| StackOverflowAnalysis.AcceptanceShownAsPercent | main.py:195 | a ratio in [0, 1] shows as a whole percentage from 0 to 100, within half a point |
| StackOverflowAnalysis.SeniorShowsCappedReputation | main.py:172-197 | the reputation shown is the capped one, below the limit plus 1 |
| StackOverflowAnalysis.AnalyzeStackOverflow | main.py:157-213 | the step-by-step analysis, including the cap loop, produces the specification report |
| StackOverflowAnalysis.SoShortlist | main.py:207-212 | each role lists a top selection of rows, shown with their display names |
| StackOverflowAnalysis.SoReportOutcome | main.py:157-213 | missing file gives Skipped; an empty table gives Raised; otherwise ranked top selections |
| StackOverflowAnalysis.SoReason | main.py:193-200 | get_so_reason; no contract of its own: ArchitectShowsAllTags, MissingTagsReason, AcceptanceShownAsPercent and SeniorShowsCappedReputation state its properties |
| StackOverflowAnalysis.SoReport | main.py:157-213 | the StackOverflow report; no contract of its own: SoReportOutcome states it, and AnalyzeStackOverflow computes it |
| Decimal.Trunc | main.py:51-52 | int() truncates toward zero |
| Decimal.RoundHalfEven | main.py:130 | formatting rounds to the nearest integer, ties to even |
| Decimal.Rounded1 | main.py:130 | the one-decimal value is within 0.05 of the exact one |
| Decimal.FormatFixed1RoundTrip | main.py:130 | the .1f text reads back as the value rounded to tenths |
| Decimal.ParseIntToString | main.py:51-52 | the text of an int reads back as that int |
| Decimal.ParseNatToString | main.py:51-52 | the text of a natural number reads back as that number |
| Decimal.ParsedCharsAreNumberChars | main.py:91-94 | what float() accepts is written with digits, a point and a sign only |
| Decimal.TenthsTextValue | main.py:130 | the digits, point and tenth digit read back as q / 10 |
| Decimal.ParseFloat | main.py:91-94 | float() on plain decimals; no contract of its own: ParsedCharsAreNumberChars, ParseIntToString and FormatFixed1RoundTrip state its properties |
| Decimal.FormatFixed1 | main.py:130 | the .1f format; no contract of its own: FormatFixed1RoundTrip states that it reads back as the value rounded to tenths |
| Decimal.FormatPercent0 | main.py:195 | the .0% format; no contract of its own: StackOverflowAnalysis.AcceptanceShownAsPercent states it |
| Pipeline.StopAtRaiseFacts | main.py:215-218 | what StopAtRaise keeps is a prefix of the plan; only its last analysis can have raised; the run is cut short only by a raise |
| Pipeline.StopAtRaiseOfThree | main.py:215-218 | the three-step run stops after the first raise and otherwise runs all three |
| Pipeline.RunAll | main.py:215-218 | running the three analyses in turn gives the specified reports |
| Pipeline.RunStopsAtFirstRaise | main.py:215-218 | GitHub always runs, only the last report can be Raised, and a short run ends in Raised |
| Pipeline.MissingFilesDoNotStop | main.py:215-218 | missing files only skip their own analysis |
| Pipeline.EmptyGitHubEndsRun | main.py:215-218 | an empty GitHub table ends the run before Kaggle and StackOverflow |

## Left out

- Reading the CSV files, `print`, the banner lines and `pd.set_option`.
  - A read is a table argument: `None` stands for a missing file.
  - The output is the `Report` value, not console text.
- `np.log1p` and the 0.95 `quantile` are function parameters.
  - Where order matters, `log1p` is only assumed non-decreasing (`MonotoneThenScale`).
  - Capping holds for any limit.
- Floating point: every number is an exact real.
  - IEEE rounding is left out.
  - NaN is left out beyond one case: a Kaggle table with no `Usability` at all gives `NanScores`.
- Missing numeric cells (other than Kaggle `Usability`) are not modelled; those columns are plain reals.
  - A missing `size` would print as "nan", which `float()` accepts; it is not modelled.
- `float()` accepts only an optional sign, digits and at most one decimal point. Exponents, "inf", "nan" and underscores are not modelled.
- Upper- and lower-casing are ASCII only.
- Group order: pandas sorts the group keys, while the model keeps first-appearance order. This only changes which row wins a tie.
- Sorting: pandas' default sort does not promise an order among equal scores.
  - `Ranking.TopK` breaks ties by row order.
  - The tie order is stated separately, as a strengthening, in `Ranking.TopKStableTies`.
  - `Ranking.TopKIsTopSelection` states only what any tie order gives.
- `int()` of NaN or infinity raising is not modelled.
- The Python format mini-language is covered only for `.1f` and `.0%`, on exact reals.
- The `dominant_language` strip (main.py:22) is left out: that column never reaches the scores or the reasons.
- A missing `display_name` in StackOverflow is not modelled.
- KaggleAnalysis.KaggleReport: with no `Usability` at all, the Developer and Solution Architect lists the source prints are not modelled; only the Senior Developer list is. Those lists rank NaN scores, which sort last in an order pandas does not promise.
- The exception the scaler raises on an empty table is not caught, so it ends the whole run, not only that source's analysis (`Pipeline.RunAll`).
- A constant column scales to 0, because the scaler replaces a zero range by 1 (`Scaling.ConstantColumnScalesToZero`).
- `Project/app.py` and `Project/models.py` (the web front end and its storage) are not part of this model.
