/** The report `grade_privacy_issues` in src/models/privacy_grader.py assembles: the
    classification buckets of every category, the per-category reports, the "worst
    categories" list and the whole `PrivacyReport`, as functions of the taxonomy, the
    weights, the category iteration order and the detected issue strings. */
module ModelReport {
  import opened Collections
  import opened Text
  import opened Grades
  import opened ModelScoring

  /** The three lists of a category report; blockers share the bad list. */
  datatype Bucket = GoodBucket | NeutralBucket | BadBucket

  function BucketOf(c: Classification): Bucket
  {
    match c
    case Good => GoodBucket
    case Neutral => NeutralBucket
    case Bad => BadBucket
    case Blocker => BadBucket
  }

  /** `PrivacyCategoryReport`; `score` is the category score times 100. */
  datatype CategoryReport = CategoryReport(
    parentCategory: string,
    grade: Grade,
    score: real,
    goodIssues: seq<string>,
    neutralIssues: seq<string>,
    badIssues: seq<string>,
    totalPossibleIssues: nat,
    categoryWeight: real)

  /** `PrivacyReport`; `overallScore` is the overall score times 100. */
  datatype PrivacyReport = PrivacyReport(
    overallGrade: Grade,
    overallScore: real,
    parentCategoryGrades: map<string, CategoryReport>,
    worstParentCategories: seq<CategoryReport>,
    unknownIssues: Option<seq<string>>)

  /** A table whose issue column is already lower-cased, as `PrivacyGrader` keeps it. */
  predicate IsLowered(rows: seq<Row>)
  {
    forall i :: 0 <= i < |rows| ==> Lower(rows[i].privacyIssue) == rows[i].privacyIssue
  }

  lemma LowerIssuesIsLowered(rows: seq<Row>)
    ensures IsLowered(LowerIssues(rows))
  {
    forall i | 0 <= i < |rows|
      ensures Lower(LowerIssues(rows)[i].privacyIssue) == LowerIssues(rows)[i].privacyIssue
    {
      LowerIdempotent(rows[i].privacyIssue);
    }
  }

  // ---------------------------------------------------------------------------
  // Lookups
  // ---------------------------------------------------------------------------

  /** The lookup lower-cases both sides, so lower-casing the query first changes nothing. */
  lemma {:induction false} ClassifyLowered(rows: seq<Row>, category: string, x: string)
    ensures Classify(rows, category, Lower(x)) == Classify(rows, category, x)
  {
    LowerIdempotent(x);
    if rows != [] {
      ClassifyLowered(rows[1..], category, x);
    }
  }

  /** A valid string filed under a taxonomy category whose text has no row in THAT
      category: the `.iloc[0]` lookup raises IndexError on it. */
  predicate LookupFailsAt(rows: seq<Row>, categories: set<string>, s: string)
  {
    HasColon(s) && ParentPart(s) in categories && Classify(rows, ParentPart(s), IssuePart(s)).None?
  }

  predicate LookupFails(rows: seq<Row>, categories: set<string>, valid: seq<string>)
  {
    exists k :: 0 <= k < |valid| && LookupFailsAt(rows, categories, valid[k])
  }

  /** The bucket loop and the score loop raise on the same inputs: some valid string
      fails its lookup exactly when some category has no score. */
  lemma LookupFailsIffNoScore(rows: seq<Row>, weights: map<string, real>, valid: seq<string>, categories: set<string>)
    requires categories <= weights.Keys
    ensures LookupFails(rows, categories, valid) <==>
      exists c :: c in categories && CategoryScore(rows, weights, valid, c).None?
  {
    if LookupFails(rows, categories, valid) {
      var k :| 0 <= k < |valid| && LookupFailsAt(rows, categories, valid[k]);
      var c := ParentPart(valid[k]);
      FailedLookupNoScore(rows, weights, valid, c, k);
    }
    if exists c :: c in categories && CategoryScore(rows, weights, valid, c).None? {
      var c :| c in categories && CategoryScore(rows, weights, valid, c).None?;
      var k := NoScoreFailedLookup(rows, weights, valid, c);
      assert LookupFailsAt(rows, categories, valid[k]);
    }
  }

  lemma FailedLookupNoScore(rows: seq<Row>, weights: map<string, real>, valid: seq<string>, c: string, k: nat)
    requires c in weights
    requires k < |valid| && HasColon(valid[k]) && ParentPart(valid[k]) == c
    requires Classify(rows, c, IssuePart(valid[k])).None?
    ensures CategoryScore(rows, weights, valid, c).None?
  {
    var found := FoundIssues(valid, c);
    FoundIssuesHas(valid, c, k);
    ClassifyLowered(rows, c, IssuePart(valid[k]));
    var j :| 0 <= j < |found| && found[j] == Lower(IssuePart(valid[k]));
    assert !AllClassified(rows, c, found);
  }

  lemma NoScoreFailedLookup(rows: seq<Row>, weights: map<string, real>, valid: seq<string>, c: string) returns (k: nat)
    requires c in weights
    requires CategoryScore(rows, weights, valid, c).None?
    ensures k < |valid| && HasColon(valid[k]) && ParentPart(valid[k]) == c
    ensures Classify(rows, c, IssuePart(valid[k])).None?
  {
    var found := FoundIssues(valid, c);
    var j :| 0 <= j < |found| && Classify(rows, c, found[j]).None?;
    FoundIssuesFrom(valid, c, j);
    k :| 0 <= k < |valid| && HasColon(valid[k]) && ParentPart(valid[k]) == c
      && found[j] == Lower(IssuePart(valid[k]));
    ClassifyLowered(rows, c, IssuePart(valid[k]));
  }

  // ---------------------------------------------------------------------------
  // Buckets
  // ---------------------------------------------------------------------------

  /** What one valid string adds to bucket `b` of `category`: its stripped issue text, in
      the case the input used, when it is filed under the category with a classification
      of that bucket. */
  function BucketText(rows: seq<Row>, category: string, s: string, b: Bucket): seq<string>
  {
    if HasColon(s) && ParentPart(s) == category then
      match Classify(rows, category, IssuePart(s))
      case Some(c) => if BucketOf(c) == b then [IssuePart(s)] else []
      case None => []
    else []
  }

  /** One bucket of a category, in input order. */
  function BucketIssues(rows: seq<Row>, valid: seq<string>, category: string, b: Bucket): seq<string>
  {
    FlatMap(valid, s => BucketText(rows, category, s, b))
  }

  /** One more valid string adds its entry, if any, at the end of the bucket. */
  lemma BucketIssuesStep(rows: seq<Row>, valid: seq<string>, i: nat, category: string, b: Bucket)
    requires i < |valid|
    ensures BucketIssues(rows, valid[..i + 1], category, b)
      == BucketIssues(rows, valid[..i], category, b) + BucketText(rows, category, valid[i], b)
  {
    FlatMapPrefix(valid, s => BucketText(rows, category, s, b), i);
  }

  /** A blocker or bad issue filed under a category lands in its bad bucket. */
  lemma BadIssueInBadBucket(rows: seq<Row>, valid: seq<string>, category: string, k: nat)
    requires k < |valid| && HasColon(valid[k]) && ParentPart(valid[k]) == category
    requires Classify(rows, category, IssuePart(valid[k])) == Some(Blocker) || Classify(rows, category, IssuePart(valid[k])) == Some(Bad)
    ensures IssuePart(valid[k]) in BucketIssues(rows, valid, category, BadBucket)
  {
    var s := valid[k];
    assert BucketText(rows, category, s, BadBucket) == [IssuePart(s)];
    FlatMapHas(valid, s => BucketText(rows, category, s, BadBucket), k, IssuePart(s));
  }

  /** Every bucket entry is the issue text of a valid string filed under the category
      whose classification belongs to that bucket. */
  lemma BucketEntryFrom(rows: seq<Row>, valid: seq<string>, category: string, b: Bucket, j: nat)
    requires j < |BucketIssues(rows, valid, category, b)|
    ensures exists k ::
              && 0 <= k < |valid| && HasColon(valid[k]) && ParentPart(valid[k]) == category
              && BucketIssues(rows, valid, category, b)[j] == IssuePart(valid[k])
              && Classify(rows, category, IssuePart(valid[k])).Some?
              && BucketOf(Classify(rows, category, IssuePart(valid[k])).value) == b
  {
    FlatMapFrom(valid, s => BucketText(rows, category, s, b), j);
  }

  /** When no lookup fails, the three buckets of a category hold as many entries as the
      category found issues: every found issue is in exactly one bucket. */
  lemma BucketsCount(rows: seq<Row>, valid: seq<string>, categories: set<string>, category: string)
    requires category in categories && !LookupFails(rows, categories, valid)
    ensures |BucketIssues(rows, valid, category, GoodBucket)| + |BucketIssues(rows, valid, category, NeutralBucket)|
      + |BucketIssues(rows, valid, category, BadBucket)| == |FoundIssues(valid, category)|
  {
    forall k | 0 <= k < |valid|
      ensures |BucketText(rows, category, valid[k], GoodBucket)| + |BucketText(rows, category, valid[k], NeutralBucket)|
        + |BucketText(rows, category, valid[k], BadBucket)| == |Filed(valid[k], category)|
    {
      assert !LookupFailsAt(rows, categories, valid[k]);
    }
    FlatMapLength3(valid, s => BucketText(rows, category, s, GoodBucket), s => BucketText(rows, category, s, NeutralBucket),
      s => BucketText(rows, category, s, BadBucket), s => Filed(s, category));
  }

  // ---------------------------------------------------------------------------
  // Worst categories
  // ---------------------------------------------------------------------------

  predicate SortedByScore(rs: seq<CategoryReport>)
  {
    forall i, j :: 0 <= i < j < |rs| ==> rs[i].score <= rs[j].score
  }

  /** Insert `x` into a sorted list after every entry whose score is not above its own. */
  function InsertByScore(rs: seq<CategoryReport>, x: CategoryReport): (r: seq<CategoryReport>)
    requires SortedByScore(rs)
    ensures SortedByScore(r)
    ensures multiset(r) == multiset(rs) + multiset{x}
  {
    if rs == [] then [x]
    else
      var n := |rs| - 1;
      if x.score < rs[n].score then
        var r0 := InsertByScore(rs[..n], x);
        assert rs == rs[..n] + [rs[n]];
        InsertBelow(rs[..n], x, rs[n], r0);
        r0 + [rs[n]]
      else
        assert forall i :: 0 <= i < n ==> rs[i].score <= rs[n].score;
        rs + [x]
  }

  lemma InsertBelow(rs: seq<CategoryReport>, x: CategoryReport, top: CategoryReport, r0: seq<CategoryReport>)
    requires SortedByScore(r0) && multiset(r0) == multiset(rs) + multiset{x}
    requires forall i :: 0 <= i < |rs| ==> rs[i].score <= top.score
    requires x.score < top.score
    ensures SortedByScore(r0 + [top])
  {
    forall i | 0 <= i < |r0|
      ensures r0[i].score <= top.score
    {
      assert r0[i] in multiset(r0);
      if r0[i] != x {
        assert r0[i] in multiset(rs);
        var j :| 0 <= j < |rs| && rs[j] == r0[i];
      }
    }
  }

  /** `sorted(rs, key=lambda x: x.score)`: sorted by score and a permutation of `rs`. */
  function SortByScore(rs: seq<CategoryReport>): (r: seq<CategoryReport>)
    ensures SortedByScore(r)
    ensures multiset(r) == multiset(rs)
  {
    if rs == [] then []
    else
      var n := |rs| - 1;
      assert rs == rs[..n] + [rs[n]];
      InsertByScore(SortByScore(rs[..n]), rs[n])
  }

  /** The reports with a non-empty bad bucket, in the order given. */
  function WithBadIssues(rs: seq<CategoryReport>): seq<CategoryReport>
  {
    FlatMap(rs, (r: CategoryReport) => if r.badIssues != [] then [r] else [])
  }

  /** `sorted([r for r in reports if r.bad_issues], key=score)[:5]`. */
  function WorstCategories(rs: seq<CategoryReport>): seq<CategoryReport>
  {
    var sorted := SortByScore(WithBadIssues(rs));
    if |sorted| <= 5 then sorted else sorted[..5]
  }

  /** At most five reports, sorted by score, each with bad issues and each one of the
      given reports. */
  lemma WorstCategoriesSpec(rs: seq<CategoryReport>)
    ensures |WorstCategories(rs)| <= 5
    ensures SortedByScore(WorstCategories(rs))
    ensures forall r :: r in WorstCategories(rs) ==> r.badIssues != [] && r in rs
  {
    var sorted := SortByScore(WithBadIssues(rs));
    if |sorted| > 5 {
      SortedPrefix(sorted, 5);
    }
    WorstCategoriesFrom(rs);
  }

  lemma SortedPrefix(rs: seq<CategoryReport>, n: nat)
    requires SortedByScore(rs) && n <= |rs|
    ensures SortedByScore(rs[..n])
  {
  }

  lemma WorstCategoriesFrom(rs: seq<CategoryReport>)
    ensures forall r :: r in WorstCategories(rs) ==> r.badIssues != [] && r in rs
  {
    var bad := WithBadIssues(rs);
    var sorted := SortByScore(bad);
    var worst := WorstCategories(rs);
    forall r | r in worst
      ensures r.badIssues != [] && r in rs
    {
      var i :| 0 <= i < |worst| && worst[i] == r;
      assert sorted[i] == r;
      assert r in multiset(bad);
      var j :| 0 <= j < |bad| && bad[j] == r;
      WithBadIssuesFrom(rs, j);
    }
  }

  /** Each entry of the filtered list is a given report with bad issues. */
  lemma WithBadIssuesFrom(rs: seq<CategoryReport>, j: nat)
    requires j < |WithBadIssues(rs)|
    ensures WithBadIssues(rs)[j].badIssues != [] && WithBadIssues(rs)[j] in rs
  {
    var f := (r: CategoryReport) => if r.badIssues != [] then [r] else [];
    FlatMapFrom(rs, f, j);
    var k :| 0 <= k < |rs| && WithBadIssues(rs)[j] in f(rs[k]);
  }

  /** The list keeps the lowest scores: a report with bad issues that is left out scores
      at least as high as every report kept. */
  lemma WorstCategoriesLowest(rs: seq<CategoryReport>, x: CategoryReport)
    requires x in rs && x.badIssues != [] && x !in WorstCategories(rs)
    ensures forall r :: r in WorstCategories(rs) ==> r.score <= x.score
  {
    var bad := WithBadIssues(rs);
    var sorted := SortByScore(bad);
    var k :| 0 <= k < |rs| && rs[k] == x;
    FlatMapHas(rs, (r: CategoryReport) => if r.badIssues != [] then [r] else [], k, x);
    assert x in multiset(sorted);
    var j :| 0 <= j < |sorted| && sorted[j] == x;
    assert j >= 5;
  }

  /** Every category with bad issues is listed while there are at most five of them. */
  lemma WorstCategoriesAllWhenFew(rs: seq<CategoryReport>, x: CategoryReport)
    requires x in rs && x.badIssues != []
    requires |WithBadIssues(rs)| <= 5
    ensures x in WorstCategories(rs)
  {
    var bad := WithBadIssues(rs);
    var sorted := SortByScore(bad);
    var k :| 0 <= k < |rs| && rs[k] == x;
    FlatMapHas(rs, (r: CategoryReport) => if r.badIssues != [] then [r] else [], k, x);
    assert x in multiset(sorted);
    assert sorted[..|sorted|] == sorted;
  }

  // ---------------------------------------------------------------------------
  // The whole report
  // ---------------------------------------------------------------------------

  /** The score dictionary, once no lookup fails. */
  function CategoryScores(rows: seq<Row>, weights: map<string, real>, valid: seq<string>, categories: set<string>): (scores: map<string, real>)
    requires categories <= weights.Keys
    requires !LookupFails(rows, categories, valid)
    ensures scores.Keys == categories
    ensures forall c :: c in categories ==> 0.0 <= scores[c] <= 1.0
  {
    LookupFailsIffNoScore(rows, weights, valid, categories);
    var scores := map c | c in categories :: CategoryScore(rows, weights, valid, c).value;
    assert forall c :: c in categories ==> 0.0 <= scores[c] <= 1.0 by {
      forall c | c in categories
        ensures 0.0 <= scores[c] <= 1.0
      {
        CategoryScoreBounds(rows, weights, valid, c);
      }
    }
    scores
  }

  /** `PrivacyCategoryReport(...)` for one category and its score. */
  function ReportFor(rows: seq<Row>, weights: map<string, real>, valid: seq<string>, category: string, score: real): CategoryReport
    requires category in weights
  {
    CategoryReport(category, GetGrade(score), 100.0 * score,
      BucketIssues(rows, valid, category, GoodBucket),
      BucketIssues(rows, valid, category, NeutralBucket),
      BucketIssues(rows, valid, category, BadBucket),
      |CategoryIssues(rows, category)|, weights[category])
  }

  /** The category reports in dictionary order. */
  function InOrder(order: seq<string>, grades: map<string, CategoryReport>): seq<CategoryReport>
    requires forall c :: c in order ==> c in grades
  {
    seq(|order|, i requires 0 <= i < |order| => grades[order[i]])
  }

  /** An iteration order of the taxonomy's categories: each exactly once. */
  predicate IsOrderOf(order: seq<string>, categories: set<string>)
  {
    (forall c :: c in categories ==> c in order)
    && (forall i :: 0 <= i < |order| ==> order[i] in categories)
    && forall i, j :: 0 <= i < j < |order| ==> order[i] != order[j]
  }

  /** `PrivacyReport(...)` from the score dictionary and the category reports: the
      overall score and grade, the worst categories, and the unknown strings if any. */
  function Assemble(order: seq<string>, weights: map<string, real>, scores: map<string, real>,
                    grades: map<string, CategoryReport>, unknown: seq<string>): PrivacyReport
    requires forall c :: c in order ==> c in scores && c in weights && c in grades
  {
    var overall := OverallScore(order, scores, weights);
    PrivacyReport(GetGrade(overall), 100.0 * overall, grades,
      WorstCategories(InOrder(order, grades)),
      if unknown == [] then None else Some(unknown))
  }

  /** The report assembled once validation and every lookup have succeeded. */
  function BuildReport(rows: seq<Row>, weights: map<string, real>, order: seq<string>, valid: seq<string>, unknown: seq<string>): PrivacyReport
    requires ParentCategories(rows) <= weights.Keys
    requires IsOrderOf(order, ParentCategories(rows))
    requires !LookupFails(rows, ParentCategories(rows), valid)
  {
    var categories := ParentCategories(rows);
    var scores := CategoryScores(rows, weights, valid, categories);
    var grades := map c | c in categories :: ReportFor(rows, weights, valid, c, scores[c]);
    Assemble(order, weights, scores, grades, unknown)
  }

  /** `grade_privacy_issues(issues)` of a `PrivacyGrader` whose lower-cased table is `rows`, whose
      weights are `weights` and whose category set iterates in `order`: no report for
      an empty input, IndexError when a lookup fails, the report otherwise. */
  function GradeReport(rows: seq<Row>, weights: map<string, real>, order: seq<string>, issues: seq<string>): Result<Option<PrivacyReport>>
    requires ParentCategories(rows) <= weights.Keys
    requires IsOrderOf(order, ParentCategories(rows))
  {
    var (valid, unknown) := Partition(issues, IssueSet(rows));
    if valid == [] && unknown == [] then Ok(None)
    else if LookupFails(rows, ParentCategories(rows), valid) then IndexError
    else Ok(Some(BuildReport(rows, weights, order, valid, unknown)))
  }

  /** Once validation leaves something to grade and every lookup succeeds, the report
      is BuildReport's. */
  lemma GradeReportBuilt(rows: seq<Row>, weights: map<string, real>, order: seq<string>, issues: seq<string>, valid: seq<string>, unknown: seq<string>)
    requires ParentCategories(rows) <= weights.Keys
    requires IsOrderOf(order, ParentCategories(rows))
    requires (valid, unknown) == Partition(issues, IssueSet(rows))
    requires !(valid == [] && unknown == []) && !LookupFails(rows, ParentCategories(rows), valid)
    ensures GradeReport(rows, weights, order, issues) == Ok(Some(BuildReport(rows, weights, order, valid, unknown)))
  {
  }

  /** No report exactly when there is nothing to grade. */
  lemma GradeReportNone(rows: seq<Row>, weights: map<string, real>, order: seq<string>, issues: seq<string>)
    requires ParentCategories(rows) <= weights.Keys
    requires IsOrderOf(order, ParentCategories(rows))
    ensures GradeReport(rows, weights, order, issues) == Ok(None) <==> issues == []
  {
    PartitionEmpty(issues, IssueSet(rows));
  }

  /** IndexError exactly when the input is non-empty and some valid string filed under a
      taxonomy category has no row for its text in that category. */
  lemma GradeReportError(rows: seq<Row>, weights: map<string, real>, order: seq<string>, issues: seq<string>)
    requires ParentCategories(rows) <= weights.Keys
    requires IsOrderOf(order, ParentCategories(rows))
    ensures GradeReport(rows, weights, order, issues).IndexError? <==>
      issues != [] && LookupFails(rows, ParentCategories(rows), Partition(issues, IssueSet(rows)).0)
  {
    PartitionEmpty(issues, IssueSet(rows));
  }

  /** A report covers every taxonomy category, each with a score in [0, 100] graded on
      the scale, the category's table size and its weight. */
  lemma BuildReportCategories(rows: seq<Row>, weights: map<string, real>, order: seq<string>, valid: seq<string>, unknown: seq<string>)
    requires ParentCategories(rows) <= weights.Keys
    requires IsOrderOf(order, ParentCategories(rows))
    requires !LookupFails(rows, ParentCategories(rows), valid)
    ensures var r := BuildReport(rows, weights, order, valid, unknown);
      && r.parentCategoryGrades.Keys == ParentCategories(rows)
      && forall c :: c in r.parentCategoryGrades ==>
            && r.parentCategoryGrades[c].parentCategory == c
            && 0.0 <= r.parentCategoryGrades[c].score <= 100.0
            && r.parentCategoryGrades[c].grade == GetGrade(r.parentCategoryGrades[c].score / 100.0)
            && r.parentCategoryGrades[c].totalPossibleIssues == |CategoryIssues(rows, c)|
            && r.parentCategoryGrades[c].categoryWeight == weights[c]
  {
  }

  /** The overall grade is the grade of the overall score, which lies in [0, 100] when
      no weight is negative. */
  lemma BuildReportOverall(rows: seq<Row>, weights: map<string, real>, order: seq<string>, valid: seq<string>, unknown: seq<string>)
    requires ParentCategories(rows) <= weights.Keys
    requires IsOrderOf(order, ParentCategories(rows))
    requires !LookupFails(rows, ParentCategories(rows), valid)
    ensures var r := BuildReport(rows, weights, order, valid, unknown);
      && r.overallGrade == GetGrade(r.overallScore / 100.0)
      && ((forall c :: c in order ==> weights[c] >= 0.0) ==> 0.0 <= r.overallScore <= 100.0)
  {
    var scores := CategoryScores(rows, weights, valid, ParentCategories(rows));
    if forall c :: c in order ==> weights[c] >= 0.0 {
      OverallScoreBounds(order, scores, weights);
    }
  }

  /** `unknown_issues` is absent exactly when every input string was valid, and otherwise
      holds the unknown strings in input order. */
  lemma GradeReportUnknown(rows: seq<Row>, weights: map<string, real>, order: seq<string>, issues: seq<string>)
    requires ParentCategories(rows) <= weights.Keys
    requires IsOrderOf(order, ParentCategories(rows))
    requires GradeReport(rows, weights, order, issues).Ok?
    requires GradeReport(rows, weights, order, issues).value.Some?
    ensures var r := GradeReport(rows, weights, order, issues).value.value;
      && (r.unknownIssues.None? <==> forall s :: s in issues ==> IsValidIssue(s, IssueSet(rows)))
      && (r.unknownIssues.Some? ==> r.unknownIssues.value == Partition(issues, IssueSet(rows)).1)
  {
    var (valid, unknown) := Partition(issues, IssueSet(rows));
    GradeReportBuilt(rows, weights, order, issues, valid, unknown);
    PartitionAllValid(issues, IssueSet(rows));
  }

  /** A category no valid string names scores 100 with grade A and empty buckets. */
  lemma GradeReportUntouched(rows: seq<Row>, weights: map<string, real>, order: seq<string>, issues: seq<string>, c: string)
    requires ParentCategories(rows) <= weights.Keys
    requires IsOrderOf(order, ParentCategories(rows))
    requires GradeReport(rows, weights, order, issues).Ok?
    requires GradeReport(rows, weights, order, issues).value.Some?
    requires c in ParentCategories(rows)
    requires forall s :: s in issues ==> !(HasColon(s) && ParentPart(s) == c)
    ensures var cr := GradeReport(rows, weights, order, issues).value.value.parentCategoryGrades[c];
      cr.score == 100.0 && cr.grade == A && cr.goodIssues == [] && cr.neutralIssues == [] && cr.badIssues == []
  {
    var (valid, unknown) := Partition(issues, IssueSet(rows));
    ValidAvoids(issues, IssueSet(rows), c);
    GradeReportBuilt(rows, weights, order, issues, valid, unknown);
    BuildReportUntouched(rows, weights, order, valid, unknown, c);
  }

  /** Validation keeps only input strings, so a category no input string names is named
      by no valid string. */
  lemma ValidAvoids(issues: seq<string>, known: set<string>, c: string)
    requires forall s :: s in issues ==> !(HasColon(s) && ParentPart(s) == c)
    ensures var valid := Partition(issues, known).0;
      forall k :: 0 <= k < |valid| ==> !(HasColon(valid[k]) && ParentPart(valid[k]) == c)
  {
    var (valid, unknown) := Partition(issues, known);
    PartitionSpec(issues, known);
    forall k | 0 <= k < |valid|
      ensures !(HasColon(valid[k]) && ParentPart(valid[k]) == c)
    {
      assert valid[k] in multiset(issues);
    }
  }

  lemma BuildReportUntouched(rows: seq<Row>, weights: map<string, real>, order: seq<string>, valid: seq<string>, unknown: seq<string>, c: string)
    requires ParentCategories(rows) <= weights.Keys
    requires IsOrderOf(order, ParentCategories(rows))
    requires !LookupFails(rows, ParentCategories(rows), valid)
    requires c in ParentCategories(rows)
    requires forall k :: 0 <= k < |valid| ==> !(HasColon(valid[k]) && ParentPart(valid[k]) == c)
    ensures var cr := BuildReport(rows, weights, order, valid, unknown).parentCategoryGrades[c];
      cr.score == 100.0 && cr.grade == A && cr.goodIssues == [] && cr.neutralIssues == [] && cr.badIssues == []
  {
    UntouchedCategory(rows, weights, valid, c);
    var scores := CategoryScores(rows, weights, valid, ParentCategories(rows));
    assert scores[c] == 1.0;
    assert BuildReport(rows, weights, order, valid, unknown).parentCategoryGrades[c]
      == ReportFor(rows, weights, valid, c, 1.0);
    NoBucketEntries(rows, valid, c, GoodBucket);
    NoBucketEntries(rows, valid, c, NeutralBucket);
    NoBucketEntries(rows, valid, c, BadBucket);
  }

  /** A category no valid string names has empty buckets. */
  lemma NoBucketEntries(rows: seq<Row>, valid: seq<string>, c: string, b: Bucket)
    requires forall k :: 0 <= k < |valid| ==> !(HasColon(valid[k]) && ParentPart(valid[k]) == c)
    ensures BucketIssues(rows, valid, c, b) == []
  {
    FlatMapEmpty(valid, s => BucketText(rows, c, s, b));
  }

  /** An input string filed under a taxonomy category whose text that category
      classifies as blocker or bad is listed, as stripped, among the category's bad
      issues. */
  lemma GradeReportBadIssue(rows: seq<Row>, weights: map<string, real>, order: seq<string>, issues: seq<string>, k: nat)
    requires ParentCategories(rows) <= weights.Keys
    requires IsOrderOf(order, ParentCategories(rows))
    requires GradeReport(rows, weights, order, issues).Ok?
    requires GradeReport(rows, weights, order, issues).value.Some?
    requires IsLowered(rows)
    requires k < |issues| && HasColon(issues[k]) && ParentPart(issues[k]) in ParentCategories(rows)
    requires var c := Classify(rows, ParentPart(issues[k]), IssuePart(issues[k])); c == Some(Blocker) || c == Some(Bad)
    ensures var cr := GradeReport(rows, weights, order, issues).value.value.parentCategoryGrades[ParentPart(issues[k])];
      IssuePart(issues[k]) in cr.badIssues
  {
    var s := issues[k];
    var c := ParentPart(s);
    var (valid, unknown) := Partition(issues, IssueSet(rows));
    PartitionSpec(issues, IssueSet(rows));
    ClassifyLowered(rows, c, IssuePart(s));
    LowerFoundInTable(rows, c, IssuePart(s));
    assert IsValidIssue(s, IssueSet(rows));
    assert s in multiset(valid) by {
      assert s in multiset(issues);
      assert s !in multiset(unknown);
    }
    var j :| 0 <= j < |valid| && valid[j] == s;
    BadIssueInBadBucket(rows, valid, c, j);
  }

  /** A successful lookup means the lower-cased text is one of the table's texts. */
  lemma {:induction false} LowerFoundInTable(rows: seq<Row>, category: string, x: string)
    requires Classify(rows, category, Lower(x)).Some?
    requires IsLowered(rows)
    ensures Lower(x) in IssueSet(rows)
  {
    ClassifySpec(rows, category, Lower(x));
    LowerIdempotent(x);
    var i :| 0 <= i < |rows| && rows[i].parentIssue == category
      && Lower(rows[i].privacyIssue) == Lower(Lower(x));
    assert rows[i].privacyIssue == Lower(x);
  }
}
