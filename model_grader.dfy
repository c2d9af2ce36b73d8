/** The grading engine of src/models/privacy_grader.py as a class: the constructor builds
    the taxonomy tables, and validation, category scoring and report assembly run as the
    loops of the source, each proved to compute the functions of ModelScoring and
    ModelReport. */
module ModelGrader {
  import opened Collections
  import opened Text
  import opened Grades
  import opened ModelScoring
  import opened ModelReport

  /** The three lists `grade_privacy_issues` keeps per category while it groups issues. */
  datatype Buckets = Buckets(good: seq<string>, neutral: seq<string>, bad: seq<string>)

  const NoBuckets := Buckets([], [], [])

  /** The buckets of a category after grouping the given valid strings. */
  function BucketsOf(rows: seq<Row>, valid: seq<string>, category: string): Buckets
  {
    Buckets(BucketIssues(rows, valid, category, GoodBucket),
            BucketIssues(rows, valid, category, NeutralBucket),
            BucketIssues(rows, valid, category, BadBucket))
  }

  /** The buckets with one more classified issue text: good and neutral texts go to
      their own lists, bad and blocker texts to the bad list. */
  function AddIssue(b: Buckets, x: Classification, text: string): Buckets
  {
    match BucketOf(x)
    case GoodBucket => b.(good := b.good + [text])
    case NeutralBucket => b.(neutral := b.neutral + [text])
    case BadBucket => b.(bad := b.bad + [text])
  }

  /** A valid string filed elsewhere leaves a category's buckets as they were. */
  lemma BucketsOfOther(rows: seq<Row>, valid: seq<string>, i: nat, c: string)
    requires i < |valid| && !(HasColon(valid[i]) && ParentPart(valid[i]) == c)
    ensures BucketsOf(rows, valid[..i + 1], c) == BucketsOf(rows, valid[..i], c)
  {
    BucketIssuesStep(rows, valid, i, c, GoodBucket);
    BucketIssuesStep(rows, valid, i, c, NeutralBucket);
    BucketIssuesStep(rows, valid, i, c, BadBucket);
  }

  /** A valid string filed under the category adds its text to the bucket of its
      classification. */
  lemma BucketsOfSame(rows: seq<Row>, valid: seq<string>, i: nat, c: string, x: Classification)
    requires i < |valid| && HasColon(valid[i]) && ParentPart(valid[i]) == c
    requires Classify(rows, c, IssuePart(valid[i])) == Some(x)
    ensures BucketsOf(rows, valid[..i + 1], c) == AddIssue(BucketsOf(rows, valid[..i], c), x, IssuePart(valid[i]))
  {
    BucketIssuesStep(rows, valid, i, c, GoodBucket);
    BucketIssuesStep(rows, valid, i, c, NeutralBucket);
    BucketIssuesStep(rows, valid, i, c, BadBucket);
  }

  /** One more valid string makes the lookups fail exactly when they failed before or
      fail on it. */
  lemma LookupFailsStep(rows: seq<Row>, categories: set<string>, valid: seq<string>, i: nat)
    requires i < |valid|
    ensures LookupFails(rows, categories, valid[..i + 1]) <==>
      LookupFails(rows, categories, valid[..i]) || LookupFailsAt(rows, categories, valid[i])
  {
    var p := valid[..i + 1];
    assert forall k :: 0 <= k < i ==> p[k] == valid[..i][k];
    assert p[i] == valid[i];
  }

  /** What the scoring loop computes from a category's found issues is the category's
      score. */
  lemma ScoreOfFound(rows: seq<Row>, weights: map<string, real>, valid: seq<string>, c: string, found: seq<string>, s: Option<real>)
    requires c in weights && found == FoundIssues(valid, c) && found != []
    requires s.None? <==> !AllClassified(rows, c, found)
    requires s.Some? ==> AllClassified(rows, c, found) && s.value == WeightedScore(Classifications(rows, c, found), weights[c])
    ensures s == CategoryScore(rows, weights, valid, c)
  {
  }

  /** The scores and category reports the loops of `PrivacyGrader` computed give the report of
      BuildReport. */
  lemma ReportAssembled(rows: seq<Row>, weights: map<string, real>, order: seq<string>, valid: seq<string>, unknown: seq<string>,
                        scores: map<string, real>, grades: map<string, CategoryReport>)
    requires ParentCategories(rows) <= weights.Keys
    requires IsOrderOf(order, ParentCategories(rows))
    requires !LookupFails(rows, ParentCategories(rows), valid)
    requires scores.Keys == ParentCategories(rows) && grades.Keys == ParentCategories(rows)
    requires forall c :: c in scores ==> CategoryScore(rows, weights, valid, c) == Some(scores[c])
    requires forall c :: c in grades ==> grades[c] == ReportFor(rows, weights, valid, c, scores[c])
    ensures BuildReport(rows, weights, order, valid, unknown) == Assemble(order, weights, scores, grades, unknown)
  {
    ScoresAgree(rows, weights, valid, scores);
    var categories := ParentCategories(rows);
    var specGrades := map c | c in categories :: ReportFor(rows, weights, valid, c, scores[c]);
    assert specGrades == grades;
  }

  /** A score dictionary that agrees with CategoryScore on every category is the one of
      CategoryScores. */
  lemma ScoresAgree(rows: seq<Row>, weights: map<string, real>, valid: seq<string>, scores: map<string, real>)
    requires ParentCategories(rows) <= weights.Keys
    requires !LookupFails(rows, ParentCategories(rows), valid)
    requires scores.Keys == ParentCategories(rows)
    requires forall c :: c in scores ==> CategoryScore(rows, weights, valid, c) == Some(scores[c])
    ensures CategoryScores(rows, weights, valid, ParentCategories(rows)) == scores
  {
    var spec := CategoryScores(rows, weights, valid, ParentCategories(rows));
    assert spec.Keys == scores.Keys;
  }

  /** The category report built from a category's buckets and score is ReportFor's. */
  lemma ReportOfBuckets(rows: seq<Row>, weights: map<string, real>, valid: seq<string>, c: string, score: real, b: Buckets, report: CategoryReport)
    requires c in weights && b == BucketsOf(rows, valid, c)
    requires report == CategoryReport(c, GetGrade(score), 100.0 * score, b.good, b.neutral, b.bad, |CategoryIssues(rows, c)|, weights[c])
    ensures report == ReportFor(rows, weights, valid, c, score)
  {
  }

  /** The `parent_issue` column. */
  function Parents(rows: seq<Row>): (ps: seq<string>)
    ensures forall c :: c in ps <==> c in ParentCategories(rows)
  {
    var ps := seq(|rows|, i requires 0 <= i < |rows| => rows[i].parentIssue);
    assert forall c :: c in ParentCategories(rows) ==> c in ps by {
      forall c | c in ParentCategories(rows)
        ensures c in ps
      {
        var i :| 0 <= i < |rows| && rows[i].parentIssue == c;
        assert ps[i] == c;
      }
    }
    ps
  }

  class PrivacyGrader {
    /** `mapping_df` with its `privacy_issue` column lower-cased. */
    const mappingRows: seq<Row>
    const validPrivacyIssues: set<string>
    const allParentCategories: set<string>
    /** The order in which the category set is iterated. */
    const categoryOrder: seq<string>
    const issuesByCategory: map<string, seq<string>>
    const caseMapping: map<string, string>
    const categoryWeights: map<string, real>
    const gradeBoundaries: seq<(real, Grade)>

    predicate Valid()
    {
      && IsLowered(mappingRows)
      && validPrivacyIssues == IssueSet(mappingRows)
      && allParentCategories == ParentCategories(mappingRows)
      && IsOrderOf(categoryOrder, allParentCategories)
      && issuesByCategory.Keys == allParentCategories
      && (forall c :: c in issuesByCategory ==> issuesByCategory[c] == CategoryIssues(mappingRows, c))
      && allParentCategories <= categoryWeights.Keys
      && gradeBoundaries == GradeBoundaries
    }

    /** `PrivacyGrader(mapping_df, category_weights)`: supplied weights are kept as given
        and must cover every category; without them every category weighs 1.0. */
    constructor (mappingDf: seq<Row>, weights: Option<map<string, real>>)
      requires weights.Some? ==> ParentCategories(mappingDf) <= weights.value.Keys
      ensures Valid()
      ensures mappingRows == LowerIssues(mappingDf)
      ensures allParentCategories == ParentCategories(mappingDf)
      ensures caseMapping == CreateCaseMapping(mappingDf)
      ensures weights.Some? ==> categoryWeights == weights.value
      ensures weights.None? ==> categoryWeights == map c | c in ParentCategories(mappingDf) :: 1.0
    {
      var rows := LowerIssues(mappingDf);
      LowerIssuesIsLowered(mappingDf);
      LowerIssuesCategories(mappingDf);
      var categories := ParentCategories(rows);
      var order := UniqueInOrder(Parents(rows));
      var byCategory := CreateCategoryMapping(rows, order);
      mappingRows := rows;
      validPrivacyIssues := IssueSet(rows);
      allParentCategories := categories;
      categoryOrder := order;
      issuesByCategory := byCategory;
      caseMapping := CreateCaseMapping(mappingDf);
      categoryWeights := if weights.None? then map c | c in categories :: 1.0 else weights.value;
      gradeBoundaries := GradeBoundaries;
    }

    /** `_create_category_mapping`: every category to the issues the table lists for it. */
    static method CreateCategoryMapping(rows: seq<Row>, order: seq<string>) returns (m: map<string, seq<string>>)
      ensures forall c :: c in m <==> c in order
      ensures forall c :: c in m ==> m[c] == CategoryIssues(rows, c)
    {
      m := map[];
      for t := 0 to |order|
        invariant forall c :: c in m <==> c in order[..t]
        invariant forall c :: c in m ==> m[c] == CategoryIssues(rows, c)
      {
        assert order[..t + 1] == order[..t] + [order[t]];
        m := m[order[t] := CategoryIssues(rows, order[t])];
      }
      assert order[..|order|] == order;
    }

    /** `_validate_issues`: the (valid, unknown) split, computed in one pass. */
    method ValidateIssues(foundIssues: seq<string>) returns (valid: seq<string>, unknown: seq<string>)
      ensures (valid, unknown) == Partition(foundIssues, validPrivacyIssues)
    {
      valid, unknown := [], [];
      for i := 0 to |foundIssues|
        invariant (valid, unknown) == Partition(foundIssues[..i], validPrivacyIssues)
      {
        var issue := foundIssues[i];
        assert foundIssues[..i + 1][..i] == foundIssues[..i];
        HasColonIff(issue);
        if ':' !in issue {
          unknown := unknown + [issue];
        } else {
          var issueLower := Lower(IssuePart(issue));
          if issueLower in validPrivacyIssues {
            valid := valid + [issue];
          } else {
            unknown := unknown + [issue];
          }
        }
      }
      assert foundIssues[..|foundIssues|] == foundIssues;
    }

    /** The classification lookup and score of one category with found issues: None as
        soon as a found issue has no row in the category (the IndexError). */
    method ScoreCategory(category: string, foundIssues: seq<string>) returns (r: Option<real>)
      requires category in categoryWeights && foundIssues != []
      ensures r.None? <==> !AllClassified(mappingRows, category, foundIssues)
      ensures r.Some? ==>
                && AllClassified(mappingRows, category, foundIssues)
                && r.value == WeightedScore(Classifications(mappingRows, category, foundIssues), categoryWeights[category])
    {
      var baseScore := 1.0;
      var issueClassifications: seq<Classification> := [];
      for j := 0 to |foundIssues|
        invariant |issueClassifications| == j
        invariant forall t :: 0 <= t < j ==> Classify(mappingRows, category, foundIssues[t]) == Some(issueClassifications[t])
        invariant baseScore == AdditiveScore(issueClassifications)
      {
        var classification := Classify(mappingRows, category, foundIssues[j]);
        if classification.None? {
          return None;
        }
        assert (issueClassifications + [classification.value])[..j] == issueClassifications;
        issueClassifications := issueClassifications + [classification.value];
        baseScore := baseScore + ClassificationWeight(classification.value);
      }
      assert issueClassifications == Classifications(mappingRows, category, foundIssues);
      var blockerCount := Count(issueClassifications, Blocker);
      var badCount := Count(issueClassifications, Bad);
      var goodCount := Count(issueClassifications, Good);
      if blockerCount > 0 {
        baseScore := Min(baseScore, 0.3);
      } else if badCount > 0 {
        baseScore := Min(baseScore, 0.7);
      }
      if |foundIssues| == goodCount {
        baseScore := Max(baseScore, 0.7);
      }
      var score := baseScore * categoryWeights[category];
      r := Some(Max(Min(score, 1.0), 0.0));
    }

    /** `_calculate_category_scores`: IndexError exactly when some category cannot be
        scored; otherwise every category with its score. */
    method CalculateCategoryScores(valid: seq<string>) returns (r: Result<map<string, real>>)
      requires IsOrderOf(categoryOrder, allParentCategories) && allParentCategories <= categoryWeights.Keys
      ensures r.IndexError? <==>
        exists c :: c in allParentCategories && CategoryScore(mappingRows, categoryWeights, valid, c).None?
      ensures r.Ok? ==>
                && r.value.Keys == allParentCategories
                && forall c :: c in allParentCategories ==>
                     CategoryScore(mappingRows, categoryWeights, valid, c) == Some(r.value[c])
    {
      var found := GroupFoundIssues(valid);
      var scores := map c | c in allParentCategories :: 1.0;
      for t := 0 to |categoryOrder|
        invariant scores.Keys == allParentCategories
        invariant forall j :: 0 <= j < t ==>
          CategoryScore(mappingRows, categoryWeights, valid, categoryOrder[j]) == Some(scores[categoryOrder[j]])
        invariant forall j :: t <= j < |categoryOrder| ==> scores[categoryOrder[j]] == 1.0
      {
        var category := categoryOrder[t];
        var foundIssues := Get(found, category, []);
        ghost var prev := scores;
        if foundIssues != [] {
          var s := ScoreCategory(category, foundIssues);
          ScoreOfFound(mappingRows, categoryWeights, valid, category, foundIssues, s);
          if s.None? {
            return IndexError;
          }
          scores := scores[category := s.value];
        }
        assert CategoryScore(mappingRows, categoryWeights, valid, category) == Some(scores[category]);
        forall j | 0 <= j < |categoryOrder| && j != t
          ensures scores[categoryOrder[j]] == prev[categoryOrder[j]]
        {
          assert categoryOrder[j] != category;
        }
      }
      forall c | c in allParentCategories
        ensures CategoryScore(mappingRows, categoryWeights, valid, c) == Some(scores[c])
      {
        var j :| 0 <= j < |categoryOrder| && categoryOrder[j] == c;
      }
      r := Ok(scores);
    }

    /** The first loop of `_calculate_category_scores`: the lower-cased texts each
        category finds, for the categories that find any. */
    method GroupFoundIssues(valid: seq<string>) returns (found: map<string, seq<string>>)
      ensures found.Keys <= allParentCategories
      ensures forall c :: c in allParentCategories ==> Get(found, c, []) == FoundIssues(valid, c)
    {
      found := map[];
      for i := 0 to |valid|
        invariant found.Keys <= allParentCategories
        invariant forall c :: c in allParentCategories ==> Get(found, c, []) == FoundIssues(valid[..i], c)
      {
        var item := valid[i];
        forall c | c in allParentCategories {
          FoundIssuesStep(valid, i, c);
        }
        HasColonIff(item);
        if ':' in item {
          var parentIssue := ParentPart(item);
          var privacyIssue := IssuePart(item);
          if parentIssue in allParentCategories {
            found := found[parentIssue := Get(found, parentIssue, []) + [Lower(privacyIssue)]];
          }
        }
      }
      assert valid[..|valid|] == valid;
    }

    /** The grouping loop of `grade_privacy_issues`: IndexError exactly when a lookup
        fails; otherwise the buckets of every category. */
    method GroupIssues(valid: seq<string>) returns (r: Result<map<string, Buckets>>)
      ensures r.IndexError? <==> LookupFails(mappingRows, allParentCategories, valid)
      ensures r.Ok? ==>
                && r.value.Keys <= allParentCategories
                && forall c :: c in allParentCategories ==> Get(r.value, c, NoBuckets) == BucketsOf(mappingRows, valid, c)
    {
      var byCategory: map<string, Buckets> := map[];
      for i := 0 to |valid|
        invariant byCategory.Keys <= allParentCategories
        invariant forall c :: c in allParentCategories ==> Get(byCategory, c, NoBuckets) == BucketsOf(mappingRows, valid[..i], c)
        invariant !LookupFails(mappingRows, allParentCategories, valid[..i])
      {
        var issue := valid[i];
        LookupFailsStep(mappingRows, allParentCategories, valid, i);
        HasColonIff(issue);
        if ':' in issue && ParentPart(issue) in allParentCategories {
          var parentIssue := ParentPart(issue);
          var privacyIssue := IssuePart(issue);
          var classification := Classify(mappingRows, parentIssue, privacyIssue);
          if classification.None? {
            assert LookupFailsAt(mappingRows, allParentCategories, valid[i]);
            return IndexError;
          }
          var x := classification.value;
          var b := Get(byCategory, parentIssue, NoBuckets);
          ghost var before := b;
          if x == Good {
            b := b.(good := b.good + [privacyIssue]);
          } else if x == Neutral {
            b := b.(neutral := b.neutral + [privacyIssue]);
          } else {
            b := b.(bad := b.bad + [privacyIssue]);
          }
          assert b == AddIssue(before, x, privacyIssue);
          BucketsOfSame(mappingRows, valid, i, parentIssue, x);
          ghost var prev := byCategory;
          byCategory := byCategory[parentIssue := b];
          forall c | c in allParentCategories
            ensures Get(byCategory, c, NoBuckets) == BucketsOf(mappingRows, valid[..i + 1], c)
          {
            if c != parentIssue {
              assert Get(byCategory, c, NoBuckets) == Get(prev, c, NoBuckets);
              BucketsOfOther(mappingRows, valid, i, c);
            }
          }
        } else {
          forall c | c in allParentCategories
            ensures Get(byCategory, c, NoBuckets) == BucketsOf(mappingRows, valid[..i + 1], c)
          {
            BucketsOfOther(mappingRows, valid, i, c);
          }
        }
      }
      assert valid[..|valid|] == valid;
      r := Ok(byCategory);
    }

    /** The report-building loop of `grade_privacy_issues`: one report per category, from
        its buckets and its score. */
    method CategoryReports(valid: seq<string>, byCategory: map<string, Buckets>, categoryScores: map<string, real>)
      returns (categoryGrades: map<string, CategoryReport>)
      requires (forall c :: c in allParentCategories ==> c in categoryOrder) && allParentCategories <= categoryWeights.Keys
      requires forall i :: 0 <= i < |categoryOrder| ==> categoryOrder[i] in allParentCategories
      requires forall c :: c in allParentCategories ==> c in issuesByCategory && issuesByCategory[c] == CategoryIssues(mappingRows, c)
      requires categoryScores.Keys == allParentCategories
      requires forall c :: c in allParentCategories ==> Get(byCategory, c, NoBuckets) == BucketsOf(mappingRows, valid, c)
      ensures categoryGrades.Keys == allParentCategories
      ensures forall c :: c in allParentCategories ==>
        categoryGrades[c] == ReportFor(mappingRows, categoryWeights, valid, c, categoryScores[c])
    {
      categoryGrades := map[];
      for t := 0 to |categoryOrder|
        invariant forall j :: 0 <= j < t ==> categoryOrder[j] in categoryGrades
        invariant forall c :: c in categoryGrades ==>
          && c in allParentCategories
          && categoryGrades[c] == ReportFor(mappingRows, categoryWeights, valid, c, categoryScores[c])
      {
        var category := categoryOrder[t];
        var score := categoryScores[category];
        var grade := GetGrade(score);
        var b := Get(byCategory, category, NoBuckets);
        var report := CategoryReport(category, grade, 100.0 * score,
          b.good, b.neutral, b.bad, |issuesByCategory[category]|, categoryWeights[category]);
        ReportOfBuckets(mappingRows, categoryWeights, valid, category, score, b, report);
        ghost var prev := categoryGrades;
        categoryGrades := categoryGrades[category := report];
        forall j | 0 <= j < t + 1
          ensures categoryOrder[j] in categoryGrades
        {
          if j < t {
            assert categoryOrder[j] in prev;
          }
        }
      }
    }

    /** `grade_privacy_issues`: the report of ModelReport.GradeReport, computed by the
        source's loops. */
    method GradePrivacyIssues(privacyIssues: seq<string>) returns (r: Result<Option<PrivacyReport>>)
      requires Valid()
      ensures r == GradeReport(mappingRows, categoryWeights, categoryOrder, privacyIssues)
    {
      var valid, unknown := ValidateIssues(privacyIssues);
      if valid == [] && unknown == [] {
        return Ok(None);
      }
      var grouped := GroupIssues(valid);
      if grouped.IndexError? {
        return IndexError;
      }
      LookupFailsIffNoScore(mappingRows, categoryWeights, valid, allParentCategories);
      var scored := CalculateCategoryScores(valid);
      var categoryScores := scored.value;
      var categoryGrades := CategoryReports(valid, grouped.value, categoryScores);
      ReportAssembled(mappingRows, categoryWeights, categoryOrder, valid, unknown, categoryScores, categoryGrades);
      GradeReportBuilt(mappingRows, categoryWeights, categoryOrder, privacyIssues, valid, unknown);
      // The overall score and grade, the five worst categories and the unknown
      // strings complete the report.
      r := Ok(Some(Assemble(categoryOrder, categoryWeights, categoryScores, categoryGrades, unknown)));
      assert r == Ok(Some(BuildReport(mappingRows, categoryWeights, categoryOrder, valid, unknown)));
    }
  }
}
