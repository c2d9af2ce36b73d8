# PrivaSEE grading engine in Dafny

PrivaSEE grades the privacy policy of an online service. A language model is given the
policy's text and a taxonomy of privacy issues. Each taxonomy row has a parent category,
an issue text and, in the newer grader, a classification: blocker, bad, neutral or good.
The model answers with the issues it found, and those answers become strings of the form
`"<parent>: <issue>"`. A rule-based grader then turns the strings into per-category
scores, letter grades and a report.

This project models that engine and proves what it promises:

- **The models grader** (`src/models/privacy_grader.py`, class `PrivacyGrader`).
  - Strings are split into valid and unknown ones.
  - Each category is scored: 1.0 plus the classification weights, then the blocker and
    bad caps, the all-good floor, the category weight and a clamp to [0, 1].
  - The overall score is the weighted mean, and grades come from the 0.95/0.85/0.75/0.65
    thresholds.
  - The report holds a per-category entry with good, neutral and bad buckets, and at
    most five worst categories.
  - Modules: `ModelScoring` and `ModelReport` are the pure specification. `ModelGrader`
    is the class itself, and its methods are proved against that specification.
- **The API grader** (`src/api_service/api/utils/privacy_grader.py`), module
  `ApiGrader`.
  - It is the older variant the web service uses.
  - A category scores `1 - found/possible`, the overall score is the unweighted mean, and
    grades come from the 0.8/0.6/0.4/0.2 thresholds.
- **The training dataset** (`src/models/modeling_functions.py`).
  - `chunk_text` packs a text's words greedily into chunks under a token budget; module
    `Chunking` holds its specification. The dataset follows the code as written, which
    emits an empty chunk `""` before a first word that exceeds the budget alone (see
    "## Findings").
  - `__getitem__` pairs each chunk's encoding with the text's labels.
  - `collate_fn` lays the chunks of a batch out one after another.
  - Module `ModelingFunctions` holds the class `PrivacyDataset` and `CollateFn`.
- **The string steps of the PDF pipeline** (`src/api_service/api/utils/process_pdf.py`),
  module `ProcessPdf`.
  - The taxonomy is listed for the prompt, and the model's comma-separated answer is cut
    into pieces.
  - Each piece is labelled with the parent that a lower-cased lookup gives it.
  - `PipelineFiling` proves that the labelled strings reach both graders intact.

Shared modules:

- `Collections`: Python's `dict(zip(...))` (later keys win), `dict.get`, flattening, and
  `unique()`, which keeps each value once.
- `Text`: Python's `str.lower`, `str.strip`, `str.split(sep)`, `str.split()` and
  `sep.join`.
- `Grades`: the grade scale and the threshold scan that both graders use.

Scores are Dafny `real`s, so nothing here depends on floating-point rounding.

The code iterates over a Python `set` of categories. Each grader object models that
iteration order as a constant sequence, `categoryOrder`, which holds every category
exactly once. Sums over it are proved independent of the order (`OverallScoreOrderFree`,
`ApiGradeReportOrderFree`).

A failed `.iloc[0]` lookup in the models grader becomes the error outcome `IndexError`.
An empty taxonomy in the API grader becomes `ZeroDivisionError`.

## Model

| member | source | states |
|---|---|---|
| Collections.DictFromPairs | src/models/privacy_grader.py:118 | `dict(zip(keys, values))` has exactly the given keys |
| Collections.DictFromPairsLastWins | src/api_service/api/utils/process_pdf.py:72 | a key repeated in the pairs maps to the value of its last pair |
| Collections.DictFromPairsFrom | src/api_service/api/utils/process_pdf.py:72 | every entry of the dictionary comes from one of the pairs |
| Collections.FlattenLength | src/models/modeling_functions.py:65-69 | flattening keeps the total number of elements |
| Collections.FlattenPrefixStep | src/models/modeling_functions.py:65-69 | processing one more sample appends exactly that sample's entries |
| Collections.FlattenAt | src/models/modeling_functions.py:65-69 | element `k` of list `b` lands at position `Offset(b) + k` of the flattened list |
| Collections.FlatMapHas | src/models/privacy_grader.py:154-164 | anything one element contributes appears in the concatenation |
| Collections.FlatMapFrom | src/models/privacy_grader.py:154-164 | everything in the concatenation comes from some element |
| Collections.FlatMapEmpty | src/models/privacy_grader.py:166-169 | the concatenation is empty iff no element contributes anything |
| Collections.FlatMapLength3 | src/models/privacy_grader.py:272-277 | when three per-element lists together match a fourth, their concatenations do too |
| Collections.UniqueInOrder | src/api_service/api/utils/privacy_grader.py:16 | `unique()` keeps exactly the values present, each once |
| Collections.CountPositive | src/models/privacy_grader.py:186-191 | `list.count(x) > 0` iff `x` is in the list |
| Text.LowerIdempotent | src/models/privacy_grader.py:178 | lower-casing twice equals lower-casing once |
| Text.TrimLeft | src/models/privacy_grader.py:140 | the result starts with a non-space character, or is empty |
| Text.TrimLeftSpec | src/models/privacy_grader.py:140 | only leading whitespace is removed, and the rest is a suffix of the input |
| Text.TrimRight | src/models/privacy_grader.py:140 | the result is a prefix of the input ending in a non-space character, or is empty |
| Text.TrimRightSpec | src/models/privacy_grader.py:140 | only trailing whitespace is removed |
| Text.Strip | src/models/privacy_grader.py:140 | `str.strip` leaves no whitespace at either end |
| Text.StripStripped | src/models/privacy_grader.py:140 | a string with no whitespace at its ends is unchanged by `strip` |
| Text.StripIdempotent | src/models/privacy_grader.py:140 | stripping twice equals stripping once |
| Text.StripLeadingSpace | src/models/privacy_grader.py:140 | a leading space is removed by `strip` |
| Text.FirstIndex | src/models/privacy_grader.py:140 | the cut position of `split(':', 1)` lies within the string |
| Text.FirstIndexSpec | src/models/privacy_grader.py:140 | the cut is at the first occurrence of the separator, and no earlier character is one |
| Text.SplitOn | src/api_service/api/utils/process_pdf.py:68 | `str.split(sep)` gives at least one part, and no part holds the separator |
| Text.JoinSplit | src/api_service/api/utils/process_pdf.py:68 | joining the parts of a split with the separator gives back the string |
| Text.SplitOnFree | src/api_service/api/utils/process_pdf.py:68 | a string without the separator splits into itself alone |
| Text.SplitOnCut | src/api_service/api/utils/process_pdf.py:68 | splitting cuts at the first separator and continues on the rest |
| Text.SplitJoin | src/api_service/api/utils/process_pdf.py:21-23 | separator-free parts joined by the separator split back into the same parts |
| Text.WordLen | src/models/modeling_functions.py:15 | the first word ends at the first whitespace character |
| Text.Words | src/models/modeling_functions.py:15 | `str.split()` yields only non-empty words without whitespace |
| Text.WordsOfBlank | src/models/modeling_functions.py:15 | an empty or whitespace-only text has no words |
| Text.WordsOfJoin | src/models/modeling_functions.py:23 | words joined by single spaces split back into the same words |
| Grades.FirstReached | src/models/privacy_grader.py:225-230 | the scan stops at the first threshold the score reaches, and every earlier threshold is above the score |
| Grades.GradeForStep | src/models/privacy_grader.py:227-229 | the first boundary reached decides the grade, otherwise the scan moves on |
| Grades.DescendingSteps | src/models/privacy_grader.py:108-114 | thresholds that fall step by step, with grades that fall step by step above F, are descending |
| Grades.GradeForMonotone | src/models/privacy_grader.py:225-230 | with descending boundaries, a higher score never gets a lower grade |
| ModelScoring.LowerIssuesCategories | src/models/privacy_grader.py:93 | lower-casing the issues leaves the category set unchanged |
| ModelScoring.CategoryIssuesMembers | src/models/privacy_grader.py:120-127 | a category's issue list holds exactly the issue texts of its rows |
| ModelScoring.CategoryIssuesNonEmpty | src/models/privacy_grader.py:120-127 | a category's issue list is non-empty iff it is a taxonomy category |
| ModelScoring.CaseMappingRestores | src/models/privacy_grader.py:116-118 | the case mapping is keyed by exactly the lower-cased issues, and each maps to a text that lower-cases to its key |
| ModelScoring.CaseMappingLastWins | src/models/privacy_grader.py:116-118 | when issue texts collide after lower-casing, the last row's original text wins |
| ModelScoring.HasColonIff | src/models/privacy_grader.py:135 | the colon test holds iff the string contains `:` |
| ModelScoring.PartitionSpec | src/models/privacy_grader.py:129-148 | `_validate_issues` sends each input to exactly one side, as a multiset split, with only valid strings left and only invalid right |
| ModelScoring.PartitionOrder | src/models/privacy_grader.py:129-148 | the valid list is the input with the invalid strings removed, and the unknown list the input with the valid ones removed, both in input order |
| ModelScoring.PartitionEmpty | src/models/privacy_grader.py:242-244 | both sides are empty iff the input is empty |
| ModelScoring.PartitionAllValid | src/models/privacy_grader.py:129-148 | nothing is unknown iff every input is valid |
| ModelScoring.PartitionNoColon | src/models/privacy_grader.py:135-137 | a string without `:` is always unknown |
| ModelScoring.ParentIgnored | src/models/privacy_grader.py:140-143 | validity does not depend on the parent part |
| ModelScoring.ColonCut | src/models/privacy_grader.py:140 | `p + ":" + t` splits at `p`'s end into `strip(p)` and `strip(t)` |
| ModelScoring.FoundIssuesEmpty | src/models/privacy_grader.py:166-169 | a category has no found issues iff no valid string is filed under it |
| ModelScoring.FoundIssuesStep | src/models/privacy_grader.py:154-164 | each valid string adds its lower-cased issue to its own parent's list and to no other |
| ModelScoring.FoundIssuesFrom | src/models/privacy_grader.py:154-164 | every found issue is the lower-cased issue part of a string filed under that category |
| ModelScoring.FoundIssuesHas | src/models/privacy_grader.py:154-164 | every string filed under a category contributes its issue to that category |
| ModelScoring.ClassifySpec | src/models/privacy_grader.py:176-179 | the lookup succeeds iff some row has the category and the issue, and it then gives the first such row's classification |
| ModelScoring.AdditiveScoreCounts | src/models/privacy_grader.py:171-188 | the accumulated score is 1 - 2.0·blockers - 0.7·bad + 0.1·good |
| ModelScoring.BlockerCap | src/models/privacy_grader.py:190-193 | any blocker caps the unweighted score at 0.3 |
| ModelScoring.BadCap | src/models/privacy_grader.py:194-196 | otherwise any bad issue caps it at 0.7 |
| ModelScoring.AllGoodFloorInert | src/models/privacy_grader.py:198-200 | when every issue is good the score is already at least 1.1, so the 0.7 floor never applies |
| ModelScoring.NeutralOnly | src/models/privacy_grader.py:171-200 | neutral issues alone leave the unweighted score at 1.0 |
| ModelScoring.Clamp | src/models/privacy_grader.py:205-206 | the clamp lands in [0, 1] and leaves values already there unchanged |
| ModelScoring.CategoryScoreBounds | src/models/privacy_grader.py:202-206 | every computed category score lies in [0, 1] |
| ModelScoring.UntouchedCategory | src/models/privacy_grader.py:166-169 | a category with no filed issue keeps exactly 1.0, whatever its weight |
| ModelScoring.BlockerCapsCategory | src/models/privacy_grader.py:190-206 | a blocker filed under a category caps its score at 0.3 times its weight |
| ModelScoring.FoundBlockerCap | src/models/privacy_grader.py:171-206 | a blocker among the found issues caps the weighted score at 0.3 times the weight |
| ModelScoring.ScaledCap | src/models/privacy_grader.py:202-206 | capping before weighting and clamping bounds the result by cap times weight |
| ModelScoring.OverallScoreBounds | src/models/privacy_grader.py:211-223 | with scores in [0, 1] and non-negative weights, the overall score lies in [0, 1] |
| ModelScoring.WeightedSumBounds | src/models/privacy_grader.py:218-221 | the weighted sum lies between 0 and the total weight |
| ModelScoring.SumOverBounded | src/models/privacy_grader.py:213-221 | summands bounded pointwise give bounded sums |
| ModelScoring.OverallScoreOfConstant | src/models/privacy_grader.py:211-223 | when every category has the same score and the weights do not add to zero, that score is the overall score |
| ModelScoring.OverallScoreOfScaled | src/models/privacy_grader.py:211-223 | a weighted sum equal to `s` times the total weight gives overall score `s` |
| ModelScoring.WeightedSumOfConstant | src/models/privacy_grader.py:218-221 | equal scores factor out of the weighted sum |
| ModelScoring.SumOverScaled | src/models/privacy_grader.py:218-221 | a factor common to all summands factors out of the sum |
| ModelScoring.SumOverPermutation | src/models/privacy_grader.py:213-221 | the sum does not depend on the order of the keys |
| ModelScoring.SumOverRemove | src/models/privacy_grader.py:213-221 | the sum is the sum without one key plus that key's value |
| ModelScoring.OverallScoreOrderFree | src/models/privacy_grader.py:211-223 | the overall score does not depend on the iteration order of the categories |
| ModelScoring.GetGrade | src/models/privacy_grader.py:225-230 | A iff ≥ 0.95, B iff in [0.85, 0.95), C iff in [0.75, 0.85), D iff in [0.65, 0.75), F iff < 0.65 |
| ModelScoring.GetGradeMonotone | src/models/privacy_grader.py:108-114 | a higher score never gets a lower grade |
| ModelReport.LowerIssuesIsLowered | src/models/privacy_grader.py:81 | a `PrivacyGrader` table holds only lower-cased issue texts |
| ModelReport.ClassifyLowered | src/models/privacy_grader.py:178 | the classification lookup compares lower-cased texts, so lower-casing its argument changes nothing |
| ModelReport.LookupFailsIffNoScore | src/models/privacy_grader.py:176-179 | grouping raises IndexError iff some category's score lookup fails |
| ModelReport.FailedLookupNoScore | src/models/privacy_grader.py:176-179 | a filed issue that its own category does not list leaves that category without a score |
| ModelReport.NoScoreFailedLookup | src/models/privacy_grader.py:176-179 | a category without a score has a filed issue its rows do not list |
| ModelReport.BucketIssuesStep | src/models/privacy_grader.py:249-277 | each valid string adds its issue to one bucket of its own category |
| ModelReport.BadIssueInBadBucket | src/models/privacy_grader.py:276-277 | blocker and bad issues go to the bad bucket |
| ModelReport.BucketEntryFrom | src/models/privacy_grader.py:249-277 | every bucket entry is the issue of a string filed under that category whose classification picks that bucket |
| ModelReport.BucketsCount | src/models/privacy_grader.py:249-277 | the three buckets together hold as many issues as the category's found issues |
| ModelReport.InsertByScore | src/models/privacy_grader.py:304-310 | inserting into a list sorted by score keeps it sorted and adds exactly that element |
| ModelReport.SortByScore | src/models/privacy_grader.py:304-310 | the result is sorted ascending by score and is a permutation of the input |
| ModelReport.WorstCategoriesSpec | src/models/privacy_grader.py:304-310 | at most five categories, sorted ascending by score, each with bad issues and each from the input |
| ModelReport.WorstCategoriesFrom | src/models/privacy_grader.py:304-308 | each listed category has bad issues and comes from the reports |
| ModelReport.WithBadIssuesFrom | src/models/privacy_grader.py:305-308 | the filter keeps only reports with bad issues, all from the input |
| ModelReport.WorstCategoriesLowest | src/models/privacy_grader.py:304-310 | a category with bad issues that is left off scores at least as high as every listed one |
| ModelReport.WorstCategoriesAllWhenFew | src/models/privacy_grader.py:304-310 | when at most five categories have bad issues, every one of them is listed |
| ModelReport.CategoryScores | src/models/privacy_grader.py:149-208 | when every lookup succeeds, there is one score per taxonomy category, each in [0, 1] |
| ModelReport.GradeReportBuilt | src/models/privacy_grader.py:240-318 | proof step for `ModelGrader.PrivacyGrader.GradePrivacyIssues`: once validation leaves something and every lookup succeeds, the result is the assembled report |
| ModelReport.GradeReportNone | src/models/privacy_grader.py:242-244 | there is no report iff the input list is empty |
| ModelReport.GradeReportError | src/models/privacy_grader.py:266-269 | IndexError iff the input is non-empty and some valid string is filed under a taxonomy category that does not list its issue |
| ModelReport.BuildReportCategories | src/models/privacy_grader.py:283-297 | every taxonomy category gets an entry with its name, a score in [0, 100], the grade of that score, the size of its issue list and its weight |
| ModelReport.BuildReportOverall | src/models/privacy_grader.py:300-301 | the overall grade is the grade of the overall score, which lies in [0, 100] when weights are non-negative |
| ModelReport.GradeReportUnknown | src/models/privacy_grader.py:317 | `unknown_issues` is None iff every input is valid, and otherwise holds the unknown strings in order |
| ModelReport.GradeReportUntouched | src/models/privacy_grader.py:283-297 | a category no input names scores 100 with grade A and empty buckets |
| ModelReport.ValidAvoids | src/models/privacy_grader.py:129-148 | validation does not file a string under a category it did not name |
| ModelReport.BuildReportUntouched | src/models/privacy_grader.py:283-297 | a category without filed issues gets score 100, grade A and empty buckets |
| ModelReport.NoBucketEntries | src/models/privacy_grader.py:247-277 | a category without filed issues has empty buckets |
| ModelReport.GradeReportBadIssue | src/models/privacy_grader.py:272-277 | a blocker or bad input issue appears in its category's `bad_issues` |
| ModelReport.LowerFoundInTable | src/models/privacy_grader.py:141-143 | an issue that the classification lookup finds is in the valid issue set |
| ModelGrader.BucketsOfOther | src/models/privacy_grader.py:249-277 | a string filed elsewhere leaves a category's buckets unchanged |
| ModelGrader.BucketsOfSame | src/models/privacy_grader.py:258-277 | a string filed under the category adds its issue to the bucket of its classification |
| ModelGrader.LookupFailsStep | src/models/privacy_grader.py:266-269 | proof step for `PrivacyGrader.GroupIssues`: the loop raises by step `i + 1` iff it raised before or raises at step `i` |
| ModelGrader.ScoreOfFound | src/models/privacy_grader.py:166-206 | proof step for `PrivacyGrader.CalculateCategoryScores`: the score computed from a category's found issues is the specified category score |
| ModelGrader.ReportAssembled | src/models/privacy_grader.py:283-318 | proof step for `PrivacyGrader.GradePrivacyIssues`: reports built from the computed scores and buckets make the specified report |
| ModelGrader.ScoresAgree | src/models/privacy_grader.py:280 | proof step for `ReportAssembled`: the scores computed per category are the specified score dictionary |
| ModelGrader.ReportOfBuckets | src/models/privacy_grader.py:288-297 | proof step for `PrivacyGrader.CategoryReports`: a category report built from the buckets is the specified one |
| ModelGrader.Parents | src/models/privacy_grader.py:93 | the category list holds exactly the taxonomy's categories |
| ModelGrader.PrivacyGrader.constructor | src/models/privacy_grader.py:78-114 | lower-cases the table, derives the issue set, categories and case mapping, and keeps the given weights or weighs every category 1.0 |
| ModelGrader.PrivacyGrader.CreateCategoryMapping | src/models/privacy_grader.py:120-127 | one entry per category, holding that category's issue texts in row order |
| ModelGrader.PrivacyGrader.ValidateIssues | src/models/privacy_grader.py:129-148 | the loop computes the specified partition into valid and unknown strings |
| ModelGrader.PrivacyGrader.ScoreCategory | src/models/privacy_grader.py:171-206 | the loop fails iff a found issue has no row, and otherwise returns the weighted, capped and clamped score |
| ModelGrader.PrivacyGrader.CalculateCategoryScores | src/models/privacy_grader.py:149-208 | IndexError iff some category's lookup fails, and otherwise every category's specified score |
| ModelGrader.PrivacyGrader.GroupFoundIssues | src/models/privacy_grader.py:153-164 | only taxonomy categories get lists, and each holds that category's found issues |
| ModelGrader.PrivacyGrader.GroupIssues | src/models/privacy_grader.py:247-277 | IndexError iff some lookup fails, and otherwise every category's specified buckets |
| ModelGrader.PrivacyGrader.CategoryReports | src/models/privacy_grader.py:283-297 | one report per taxonomy category, each the specified one |
| ModelGrader.PrivacyGrader.GradePrivacyIssues | src/models/privacy_grader.py:236-318 | the method's result is the specified `GradeReport` |
| ApiGrader.ApiParents | src/api_service/api/utils/privacy_grader.py:16 | the listed parents are exactly the taxonomy categories |
| ApiGrader.PossibleIssuesNonEmpty | src/api_service/api/utils/privacy_grader.py:25-30 | every taxonomy category has at least one possible issue |
| ApiGrader.PossibleIssuesMembers | src/api_service/api/utils/privacy_grader.py:25-30 | an issue is listed under a category iff some row files it there |
| ApiGrader.PossibleIssuesCount | src/api_service/api/utils/privacy_grader.py:25-30 | a category lists one issue per row filed under it, duplicates included, so the score's denominator is the count of that parent in the `parent_issue` column |
| ApiGrader.ApiScoreRange | src/api_service/api/utils/privacy_grader.py:57-58 | a score is at most 1; it is at least 0 when found ≤ possible, and negative when more issues are found than possible |
| ApiGrader.ApiScoreDecreasing | src/api_service/api/utils/privacy_grader.py:58 | each further found issue strictly lowers the score |
| ApiGrader.ApiScoreExamples | src/api_service/api/utils/privacy_grader.py:58 | 1 of 4 gives 0.75, 1 of 1 gives 0.0, 2 of 1 gives -1.0 |
| ApiGrader.ApiGrade | src/api_service/api/utils/privacy_grader.py:62-65 | A iff ≥ 0.8, B iff in [0.6, 0.8), C iff in [0.4, 0.6), D iff in [0.2, 0.4), F iff < 0.2 |
| ApiGrader.ApiGradeMonotone | src/api_service/api/utils/privacy_grader.py:62-65 | a higher score never gets a lower grade |
| ApiGrader.ApiGradeExamples | src/api_service/api/utils/privacy_grader.py:18-23 | 0.85 gives A, 0.65 gives B, 0.45 gives C, 0.25 gives D, 0.15 gives F |
| ApiGrader.ApiUntouched | src/api_service/api/utils/privacy_grader.py:43 | a category no string names keeps 1.0 |
| ApiGrader.ApiScoresStep | src/api_service/api/utils/privacy_grader.py:47-58 | one more string filed under a category lowers that category's score and no other |
| ApiGrader.ApiScoresIgnore | src/api_service/api/utils/privacy_grader.py:47-52 | a string without `:`, or whose parent is not a category, changes no score |
| ApiGrader.ApiGradeReportError | src/api_service/api/utils/privacy_grader.py:61 | the mean divides by zero iff the taxonomy is empty |
| ApiGrader.ApiGradeReportOrderFree | src/api_service/api/utils/privacy_grader.py:61 | the report does not depend on the iteration order of the categories |
| ApiGrader.SameOrderMultiset | src/api_service/api/utils/privacy_grader.py:16 | two iteration orders of one set hold the same elements the same number of times |
| ApiGrader.OrderMultiset | src/api_service/api/utils/privacy_grader.py:16 | an iteration order holds each element of the set exactly once |
| ApiGrader.OrderLength | src/api_service/api/utils/privacy_grader.py:61 | an iteration order is as long as the set, so `len(category_scores)` is the number of categories |
| ApiGrader.ApiMeanBounds | src/api_service/api/utils/privacy_grader.py:61 | when no category has more found issues than possible ones, the overall score lies in [0, 100] |
| ApiGrader.UnitMean | src/api_service/api/utils/privacy_grader.py:61 | the mean of values in [0, 1] lies in [0, 1] |
| ApiGrader.UnitSum | src/api_service/api/utils/privacy_grader.py:61 | `n` values in [0, 1] sum to a value in [0, n] |
| ApiGrader.ScoresFromSeen | src/api_service/api/utils/privacy_grader.py:55-58 | proof step for `PrivacyGrader.ScoreCategories`: scoring the categories met in the input, and leaving the rest at 1.0, gives every category its specified score |
| ApiGrader.ApiScoresAgree | src/api_service/api/utils/privacy_grader.py:43-58 | proof step for `PrivacyGrader.GradePrivacyIssues`: per-category agreement makes the score dictionary the specified one |
| ApiGrader.PrivacyGrader.constructor | src/api_service/api/utils/privacy_grader.py:6-23 | lower-cases the table and derives the issue set, categories, category mapping and boundaries |
| ApiGrader.PrivacyGrader.GroupIssues | src/api_service/api/utils/privacy_grader.py:44-52 | only categories get lists, each holding that category's found issues; the categories met are recorded once each |
| ApiGrader.PrivacyGrader.ScoreCategories | src/api_service/api/utils/privacy_grader.py:43-58 | every category gets `1 - found/possible`, or 1.0 when nothing was found |
| ApiGrader.PrivacyGrader.GradePrivacyIssues | src/api_service/api/utils/privacy_grader.py:32-71 | the method's result is the specified `ApiGradeReport` |
| Chunking.TokenTotalSnoc | src/models/modeling_functions.py:28 | appending a word adds its token count to the running length |
| Chunking.UnitTokenTotal | src/models/modeling_functions.py:21 | with one token per word, the token total is the number of words |
| Chunking.JoinChunksSnoc | src/models/modeling_functions.py:31-32 | emitting one more group appends its joined text |
| Chunking.FlushPacked | src/models/modeling_functions.py:22-25 | flushing a non-empty chunk when the next word does not fit keeps the packing invariant |
| Chunking.AppendPacked | src/models/modeling_functions.py:26-28 | appending a word that fits, or one to an empty chunk, keeps the packing invariant |
| Chunking.StepPacked | src/models/modeling_functions.py:20-28 | one step of the loop keeps the packing invariant |
| Chunking.PackPacked | src/models/modeling_functions.py:20-28 | the whole loop establishes the packing invariant |
| Chunking.ChunkGroupsSpec | src/models/modeling_functions.py:14-34 | the chunks' words are exactly the text's words in order; no chunk is empty; no chunk exceeds the budget unless it is one word; each chunk was flushed only because the next word did not fit |
| Chunking.ChunkGroupsSplit | src/models/modeling_functions.py:22-25 | two or more words over the budget make at least two chunks |
| Chunking.ChunkTextsWords | src/models/modeling_functions.py:14-34 | splitting each chunk's text gives back its words, and together they are the text's words |
| Chunking.ChunkTextsBlank | src/models/modeling_functions.py:31-32 | an empty or whitespace-only text yields no chunks |
| Chunking.ChunkTextsUnitTokens | src/models/modeling_functions.py:21-28 | with one token per word, every chunk has at most `max_len` words, and more than `max_len` words give at least two chunks |
| Chunking.PackAsWrittenShift | src/models/modeling_functions.py:20-28 | the loop as written differs from the corrected one only by an empty first chunk when the first word alone exceeds the budget |
| Chunking.GroupsAsWrittenShift | src/models/modeling_functions.py:14-34 | the chunks as written are the corrected chunks, preceded by an empty chunk exactly when the first word alone exceeds the budget |
| Chunking.GroupsAsWrittenWords | src/models/modeling_functions.py:14-34 | as written, the chunks' words in order are the text's words, and there are chunks iff there are words |
| Chunking.GroupsAsWrittenBudgeted | src/models/modeling_functions.py:20-32 | as written, a chunk over the budget is a single word (or the empty chunk) |
| Chunking.GroupsAsWrittenEmpty | src/models/modeling_functions.py:22-25 | as written, the only empty chunk is the first, there exactly when the first word alone exceeds the budget |
| Chunking.GroupsAsWrittenFlushes | src/models/modeling_functions.py:22-25 | as written, every chunk after the first is non-empty and starts with a word that did not fit into the chunk before it |
| Chunking.ChunkGroupsFirst | src/models/modeling_functions.py:20-28 | the corrected chunks start with the first word, and each later chunk starts with a word that did not fit |
| Chunking.ChunkTextsAsWrittenShift | src/models/modeling_functions.py:14-34 | the chunk strings as written are the corrected ones preceded by `""` exactly when the first word alone exceeds the budget |
| Chunking.ChunkTextsAsWrittenWords | src/models/modeling_functions.py:14-34 | splitting each chunk string as written gives back its words, the empty chunk giving none |
| Chunking.ChunkTextsAsWrittenBlank | src/models/modeling_functions.py:14-34 | as written, an empty or whitespace-only text yields no chunks |
| Chunking.ChunkTextsAsWrittenUnitTokens | src/models/modeling_functions.py:20-28 | with one token per word and a budget of at least one, the chunks as written are the corrected ones, each of at most `max_len` words, and more than `max_len` words give at least two chunks |
| Chunking.AsWrittenEmptyChunk | src/models/modeling_functions.py:22-25 | the word "x" of 2 tokens with a budget of 1 gives the chunks ["", "x"] as written and ["x"] corrected |
| ModelingFunctions.PrivacyDataset.constructor | src/models/modeling_functions.py:5-9 | keeps the texts, labels, tokenizer and budget |
| ModelingFunctions.PrivacyDataset.ChunkText | src/models/modeling_functions.py:14-34 | the loop, flushing on the budget test alone, returns the as-written chunking: the corrected chunks preceded by `""` exactly when the first word alone exceeds the budget (`ChunkTextsAsWrittenShift`), whose properties `GroupsAsWrittenWords`, `GroupsAsWrittenBudgeted`, `GroupsAsWrittenEmpty`, `GroupsAsWrittenFlushes`, `ChunkTextsAsWrittenWords`, `ChunkTextsAsWrittenBlank` and `ChunkTextsAsWrittenUnitTokens` state |
| ModelingFunctions.PrivacyDataset.GetItem | src/models/modeling_functions.py:36-56 | one entry per as-written chunk, the leading `""` included, in chunk order, each holding the chunk's encoding and the text's labels |
| ModelingFunctions.CollateFn | src/models/modeling_functions.py:59-69 | ids, masks and labels have one row per entry of the batch, in batch-then-chunk order |
| ModelingFunctions.CollatePosition | src/models/modeling_functions.py:65-69 | entry `k` of sample `s` is row `Offset(s) + k`, so each sample's entries stay together and in order |
| ModelingFunctions.CollateCount | src/models/modeling_functions.py:65-69 | the number of rows is the total number of entries |
| ProcessPdf.LoadPrivacyIssuesLines | src/api_service/api/utils/process_pdf.py:17-24 | an empty taxonomy gives the empty text, and otherwise the text splits at newlines back into the lines |
| ProcessPdf.ResponseList | src/api_service/api/utils/process_pdf.py:68 | one stripped piece per comma-separated part |
| ProcessPdf.ResponseListJoin | src/api_service/api/utils/process_pdf.py:68 | an answer of comma-free parts gives back each part stripped, in order |
| ProcessPdf.MappingDictSpec | src/api_service/api/utils/process_pdf.py:72 | each lower-cased issue maps to the parent of the last row with that text |
| ProcessPdf.MappingDictFrom | src/api_service/api/utils/process_pdf.py:72 | every parent in the table is the parent of a row with that issue text |
| ProcessPdf.FormatResponseList | src/api_service/api/utils/process_pdf.py:75-79 | one labelled string per piece, in order, with the looked-up parent or "Unknown" |
| ProcessPdf.ProcessResponse | src/api_service/api/utils/process_pdf.py:68-79 | the output is the answer's pieces, in order, each labelled with its parent |
| ProcessPdf.LabelledRoundTrip | src/api_service/api/utils/process_pdf.py:79 | cutting `parent + ": " + piece` at its first `:` and stripping gives back the parent and the piece |
| ProcessPdf.PipelineFiling | src/api_service/api/utils/process_pdf.py:68-79 | each labelled piece is valid to the models grader iff its lower-cased text is a known issue, and is filed under the table's parent, a taxonomy category, or under "Unknown" |

## Left out

- Storage and I/O. Reading the taxonomy CSV becomes constructor arguments holding the rows. Left out entirely: GCS access, `load_weights_from_csv`, `upload_df_to_gcs`, `read_csv_from_gcs`, `save_grade_to_csv`, the `__main__` demos, the `print` calls, PDF text extraction (fitz), and the Vertex AI chat call. The model's answer is a parameter of `ProcessResponse`.
- `round(x * 100, 2)` in both graders. Reports hold `100 * score` unrounded, because the rounding is floating-point formatting.
- Floating point in general. Scores are exact reals, so a score that sits a rounding error away from a threshold may be graded differently by the Python code.
- The iteration order of Python sets and dictionaries. Each grader takes the set's order as a constant sequence holding each category once, and the constructors pick one with `UniqueInOrder`.
  - Sums and reports are proved not to depend on that order.
  - Among equal scores, the order of `worst_parent_categories` does depend on it. Only sortedness, the bad-issue filter, membership and the bound of five are stated.
- The API grader visits `issues_by_category` in insertion order. The model visits it in the order the categories are first met, which is the same order. Each score is written once, so the order does not affect the values.
- `_restore_original_case` is never called by `grade_privacy_issues`. The case mapping is built and specified (`CaseMappingRestores`, `CaseMappingLastWins`), but the report buckets hold the stripped input text, as in the code.
- ModelGrader.PrivacyGrader.constructor: requires supplied weights to cover every taxonomy category. The code would raise `KeyError` later, when a category's weight is read.
- ModelGrader.PrivacyGrader.GradePrivacyIssues: a failed `.iloc[0]` lookup is the error outcome `IndexError`, with no exception payload.
- ApiGrader.PrivacyGrader.GradePrivacyIssues: division by zero on an empty taxonomy is the outcome `ZeroDivisionError`, with no exception payload.
- Tokenizer internals. Token counting and encoding are the function parameters `tokenCount` and `encode` of `PrivacyDataset`.
  - `max_len` is a constructor argument; its default of 512 is not modelled.
  - Padding and `torch.stack` in `collate_fn` are left out: `CollateFn` returns the row lists before padding.
  - `torch.tensor` conversion of labels is left out: labels stay integer sequences.
- Character handling. `str.lower` is modelled on the ASCII letters only; other characters are left unchanged. Whitespace is the set of characters Python's `str.isspace` accepts.
- The all-good floor. src/models/privacy_grader.py:198-200 raises a category whose found issues are all good to at least 0.7, to "reduce the minimum score" of such categories. The accumulated score is then already at least 1.1, so the floor never changes it (`AllGoodFloorInert`). The weight is applied after the floor, so nothing is shielded from it.
- One bad issue under weight 0.4. The code computes 1 - 0.7 = 0.3 for the category, the 0.7 cap does not bite, and the weighted value is 0.3 × 0.4 = 0.12.
- Classifications other than the four known ones. `Classification` holds only `blocker`, `bad`, `neutral` and `good`, so a taxonomy row carrying any other value cannot be written. In the code, such a value would make `_calculate_category_scores` raise `KeyError` at `self.classification_weights[classification]` (src/models/privacy_grader.py:183), while the grouping loop would file the issue under bad (src/models/privacy_grader.py:274-277). Neither behaviour is modelled.
- Assertions in `src/models/tests/test_grader.py` that expect `1 - found/possible` scores or the 0.8/0.6/0.4/0.2 grade thresholds describe the API grader. They are stated against `ApiGrader` (`ApiScoreExamples`, `ApiGradeExamples`), not against the models grader.

## Findings

| source | as written | input that shows it | evidently intended | confidence | as-written member | corrected member |
|---|---|---|---|---|---|---|
| src/models/modeling_functions.py:22-25 | `chunk_text` flushes the current chunk whenever the next word does not fit, even when the chunk is still empty, so a first word longer than `max_len` emits an empty chunk `""` | words `["x"]`, where "x" has 2 tokens and `max_len` is 1: the result is `["", "x"]` | flush only a non-empty chunk, giving `["x"]`; no chunk is empty | not executed | Chunking.AsWrittenEmptyChunk | Chunking.ChunkGroupsSpec |

The dataset methods `PrivacyDataset.ChunkText` and `PrivacyDataset.GetItem` keep the
behaviour as written. The corrected chunking is `ChunkGroups` and `ChunkTexts` in module
`Chunking`, with its properties proved in `ChunkGroupsSpec`, `ChunkTextsWords`,
`ChunkTextsBlank` and `ChunkTextsUnitTokens`.
