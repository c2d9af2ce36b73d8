/** The older grader of src/api_service/api/utils/privacy_grader.py, which the API uses:
    a category scores one minus the share of its taxonomy issues found, the overall
    score is the plain mean of the category scores, and grades use the thresholds 0.8,
    0.6, 0.4 and 0.2. The taxonomy arrives as rows instead of a CSV path. */
module ApiGrader {
  import opened Collections
  import opened Text
  import opened Grades
  import opened ModelScoring
  import opened ModelReport

  /** One row of the two-column taxonomy: `parent_issue`, `privacy_issue`. */
  datatype IssueRow = IssueRow(parentIssue: string, privacyIssue: string)

  /** The dictionary `grade_privacy_issues` returns; `overallScore` is the mean times 100
      (before rounding). */
  datatype ApiReport = ApiReport(overallGrade: Grade, overallScore: real, categoryScores: map<string, real>)

  /** The report, or the ZeroDivisionError of an empty taxonomy. */
  datatype ApiOutcome = Report(report: ApiReport) | ZeroDivisionError

  // ---------------------------------------------------------------------------
  // Taxonomy tables
  // ---------------------------------------------------------------------------

  /** The table with its `privacy_issue` column lower-cased. */
  function LowerRows(rows: seq<IssueRow>): seq<IssueRow>
  {
    seq(|rows|, i requires 0 <= i < |rows| => IssueRow(rows[i].parentIssue, Lower(rows[i].privacyIssue)))
  }

  // The taxonomy functions below repeat those of `ModelScoring` over `IssueRow`, as the
  // service keeps its own copy of the `PrivacyGrader` class: `LowerRows` is `LowerIssues`,
  // `ApiIssueSet` is `IssueSet`, `ApiCategories` is `ParentCategories`, `ApiParents` is
  // `ModelGrader.Parents` and `PossibleIssues` is `CategoryIssues`.

  function ApiIssueSet(rows: seq<IssueRow>): set<string>
  {
    set i | 0 <= i < |rows| :: rows[i].privacyIssue
  }

  function ApiCategories(rows: seq<IssueRow>): set<string>
  {
    set i | 0 <= i < |rows| :: rows[i].parentIssue
  }

  /** The `parent_issue` column. */
  function ApiParents(rows: seq<IssueRow>): (ps: seq<string>)
    ensures forall c :: c in ps <==> c in ApiCategories(rows)
  {
    var ps := seq(|rows|, i requires 0 <= i < |rows| => rows[i].parentIssue);
    assert forall c :: c in ApiCategories(rows) ==> c in ps by {
      forall c | c in ApiCategories(rows)
        ensures c in ps
      {
        var i :| 0 <= i < |rows| && rows[i].parentIssue == c;
        assert ps[i] == c;
      }
    }
    ps
  }

  /** The issue texts the table lists under a category, in row order. */
  function PossibleIssues(rows: seq<IssueRow>, category: string): seq<string>
  {
    if rows == [] then []
    else
      var last := rows[|rows| - 1];
      PossibleIssues(rows[..|rows| - 1], category)
        + (if last.parentIssue == category then [last.privacyIssue] else [])
  }

  /** A category of the table lists at least one issue, so its score is never left at
      1.0 for want of possible issues. */
  lemma {:induction false} PossibleIssuesNonEmpty(rows: seq<IssueRow>, category: string)
    requires category in ApiCategories(rows)
    ensures |PossibleIssues(rows, category)| > 0
  {
    var n := |rows| - 1;
    if rows[n].parentIssue != category {
      var i :| 0 <= i < |rows| && rows[i].parentIssue == category;
      assert rows[..n][i] == rows[i];
      PossibleIssuesNonEmpty(rows[..n], category);
    }
  }

  /** An issue is listed under a category exactly when some row puts it there. */
  lemma {:induction false} PossibleIssuesMembers(rows: seq<IssueRow>, category: string, x: string)
    ensures x in PossibleIssues(rows, category) <==>
      exists i :: 0 <= i < |rows| && rows[i].parentIssue == category && rows[i].privacyIssue == x
  {
    if rows != [] {
      var n := |rows| - 1;
      PossibleIssuesMembers(rows[..n], category, x);
      if x in PossibleIssues(rows, category) && x !in PossibleIssues(rows[..n], category) {
        assert rows[n].parentIssue == category && rows[n].privacyIssue == x;
      }
      if exists i :: 0 <= i < |rows| && rows[i].parentIssue == category && rows[i].privacyIssue == x {
        var i :| 0 <= i < |rows| && rows[i].parentIssue == category && rows[i].privacyIssue == x;
        if i < n {
          assert rows[..n][i] == rows[i];
        }
      }
    }
  }

  /** A category lists one issue per row filed under it, repeated rows included: the
      denominator of its score is `parent_issue.count(category)`. */
  lemma {:induction false} PossibleIssuesCount(rows: seq<IssueRow>, category: string)
    ensures |PossibleIssues(rows, category)| == Count(ApiParents(rows), category)
  {
    if rows != [] {
      var n := |rows| - 1;
      PossibleIssuesCount(rows[..n], category);
      var ps := ApiParents(rows);
      assert ps[..|ps| - 1] == ApiParents(rows[..n]);
      assert ps[|ps| - 1] == rows[n].parentIssue;
    }
  }

  /** `_create_category_mapping`: every category to the issues the table lists for it,
      in row order (`PossibleIssuesMembers`, `PossibleIssuesCount`). */
  function CreateApiCategoryMapping(rows: seq<IssueRow>, categories: set<string>): map<string, seq<string>>
  {
    map c | c in categories :: PossibleIssues(rows, c)
  }

  // ---------------------------------------------------------------------------
  // Scores and grades
  // ---------------------------------------------------------------------------

  /** The score of a category with `found` matched strings out of `possible` listed
      issues: one minus the share found, and 1.0 when nothing was found or nothing is
      listed. */
  function ApiScore(found: nat, possible: nat): real
  {
    if found > 0 && possible > 0 then 1.0 - (found as real) / (possible as real) else 1.0
  }

  /** A score never exceeds 1.0, stays in [0, 1] while no more strings are found than
      are listed, and drops below 0 once more are found than listed. */
  lemma ApiScoreRange(found: nat, possible: nat)
    ensures ApiScore(found, possible) <= 1.0
    ensures found <= possible ==> 0.0 <= ApiScore(found, possible)
    ensures 0 < possible < found ==> ApiScore(found, possible) < 0.0
  {
    if found > 0 && possible > 0 {
      var f, p := found as real, possible as real;
      assert f / p > 0.0;
      if found <= possible {
        assert f / p <= p / p;
      } else {
        assert f / p > p / p;
      }
    }
  }

  /** Finding one more string under a category with listed issues strictly lowers its
      score; the child text is never checked, so repeats and unlisted texts count. */
  lemma ApiScoreDecreasing(found: nat, possible: nat)
    requires possible > 0
    ensures ApiScore(found + 1, possible) < ApiScore(found, possible)
  {
    var p := possible as real;
    assert (found + 1) as real / p == found as real / p + 1.0 / p;
  }

  /** The scores of the tests: one of four found gives 0.75, one of one gives 0.0. */
  lemma ApiScoreExamples()
    ensures ApiScore(1, 4) == 0.75
    ensures ApiScore(1, 1) == 0.0
    ensures ApiScore(2, 1) == -1.0
  {
  }

  const ApiBoundaries: seq<(real, Grade)> := [(0.8, A), (0.6, B), (0.4, C), (0.2, D)]

  /** The `next(...)` lookup: the first threshold the score reaches, otherwise F. */
  function ApiGrade(score: real): (g: Grade)
    ensures g == A <==> score >= 0.8
    ensures g == B <==> 0.6 <= score < 0.8
    ensures g == C <==> 0.4 <= score < 0.6
    ensures g == D <==> 0.2 <= score < 0.4
    ensures g == F <==> score < 0.2
  {
    var b := ApiBoundaries;
    GradeForStep(b, score);
    GradeForStep(b[1..], score);
    GradeForStep(b[2..], score);
    GradeForStep(b[3..], score);
    assert b[1..][1..] == b[2..] && b[2..][1..] == b[3..] && b[3..][1..] == [];
    GradeFor(b, score)
  }

  /** A higher mean never gets a lower grade. */
  lemma ApiGradeMonotone(s: real, t: real)
    requires s <= t
    ensures Rank(ApiGrade(s)) <= Rank(ApiGrade(t))
  {
    DescendingSteps(ApiBoundaries);
    GradeForMonotone(ApiBoundaries, s, t);
  }

  /** The grades of the tests. */
  lemma ApiGradeExamples()
    ensures ApiGrade(0.85) == A && ApiGrade(0.65) == B && ApiGrade(0.45) == C
    ensures ApiGrade(0.25) == D && ApiGrade(0.15) == F
  {
  }

  /** The score of one category: one minus the share of its listed issues that the
      strings name, counting every string filed under it. */
  function CategoryScoreOf(rows: seq<IssueRow>, issues: seq<string>, c: string): real
  {
    ApiScore(|FoundIssues(issues, c)|, |PossibleIssues(rows, c)|)
  }

  /** The score dictionary: every category starts at 1.0, and a category some string
      names gets the share-based score. */
  function ApiScores(rows: seq<IssueRow>, categories: set<string>, issues: seq<string>): map<string, real>
  {
    map c | c in categories :: CategoryScoreOf(rows, issues, c)
  }

  /** `grade_privacy_issues` of a `PrivacyGrader` whose lower-cased table is `rows` and whose
      category set iterates in `order`. */
  function ApiGradeReport(rows: seq<IssueRow>, order: seq<string>, issues: seq<string>): ApiOutcome
    requires IsOrderOf(order, ApiCategories(rows))
  {
    if order == [] then ZeroDivisionError
    else
      var scores := ApiScores(rows, ApiCategories(rows), issues);
      var mean := SumOver(order, scores) / (|order| as real);
      Report(ApiReport(ApiGrade(mean), 100.0 * mean, scores))
  }

  /** Every category is reported; one no string names keeps 1.0. */
  lemma ApiUntouched(rows: seq<IssueRow>, issues: seq<string>, c: string)
    requires c in ApiCategories(rows)
    requires forall k :: 0 <= k < |issues| ==> !(HasColon(issues[k]) && ParentPart(issues[k]) == c)
    ensures ApiScores(rows, ApiCategories(rows), issues)[c] == 1.0
  {
    FoundIssuesEmpty(issues, c);
  }

  /** One more string filed under a category lowers that category's score and leaves
      every other score as it was. */
  lemma ApiScoresStep(rows: seq<IssueRow>, issues: seq<string>, s: string, c: string)
    requires c in ApiCategories(rows)
    requires HasColon(s) && ParentPart(s) == c
    ensures ApiScores(rows, ApiCategories(rows), issues + [s])[c] < ApiScores(rows, ApiCategories(rows), issues)[c]
    ensures forall d :: d in ApiCategories(rows) && d != c ==>
      ApiScores(rows, ApiCategories(rows), issues + [s])[d] == ApiScores(rows, ApiCategories(rows), issues)[d]
  {
    var all := issues + [s];
    assert all[..|issues|] == issues;
    assert all[..|issues| + 1] == all;
    FoundIssuesStep(all, |issues|, c);
    PossibleIssuesNonEmpty(rows, c);
    ApiScoreDecreasing(|FoundIssues(issues, c)|, |PossibleIssues(rows, c)|);
    forall d | d in ApiCategories(rows) && d != c
      ensures |FoundIssues(all, d)| == |FoundIssues(issues, d)|
    {
      FoundIssuesStep(all, |issues|, d);
    }
  }

  /** A string without `:`, or whose stripped parent is not a taxonomy category, changes
      no score. */
  lemma ApiScoresIgnore(rows: seq<IssueRow>, issues: seq<string>, s: string)
    requires !(HasColon(s) && ParentPart(s) in ApiCategories(rows))
    ensures ApiScores(rows, ApiCategories(rows), issues + [s]) == ApiScores(rows, ApiCategories(rows), issues)
  {
    var all := issues + [s];
    assert all[..|issues|] == issues;
    assert all[..|issues| + 1] == all;
    forall d | d in ApiCategories(rows)
      ensures FoundIssues(all, d) == FoundIssues(issues, d)
    {
      FoundIssuesStep(all, |issues|, d);
    }
  }

  /** The report is a ZeroDivisionError exactly when the taxonomy has no rows. */
  lemma ApiGradeReportError(rows: seq<IssueRow>, order: seq<string>, issues: seq<string>)
    requires IsOrderOf(order, ApiCategories(rows))
    ensures ApiGradeReport(rows, order, issues).ZeroDivisionError? <==> rows == []
  {
    if rows != [] {
      assert rows[0].parentIssue in ApiCategories(rows);
    }
  }

  /** The report does not depend on the order in which the category set is iterated. */
  lemma ApiGradeReportOrderFree(rows: seq<IssueRow>, order: seq<string>, other: seq<string>, issues: seq<string>)
    requires IsOrderOf(order, ApiCategories(rows)) && IsOrderOf(other, ApiCategories(rows))
    ensures ApiGradeReport(rows, order, issues) == ApiGradeReport(rows, other, issues)
  {
    var cats := ApiCategories(rows);
    var scores := ApiScores(rows, cats, issues);
    SameOrderMultiset(order, other, cats);
    assert |order| == |other| by {
      assert |multiset(order)| == |multiset(other)|;
    }
    if order != [] {
      SumOverPermutation(order, other, scores);
    }
  }

  /** Two orders of one set hold the same elements once each. */
  lemma {:induction false} SameOrderMultiset(order: seq<string>, other: seq<string>, cats: set<string>)
    requires IsOrderOf(order, cats) && IsOrderOf(other, cats)
    ensures multiset(order) == multiset(other)
  {
    OrderMultiset(order, cats);
    OrderMultiset(other, cats);
  }

  /** An order of a set holds each of its elements exactly once. */
  lemma {:induction false} OrderMultiset(order: seq<string>, cats: set<string>)
    requires IsOrderOf(order, cats)
    ensures multiset(order) == multiset(cats)
    decreases |order|
  {
    if order != [] {
      var n := |order| - 1;
      var last := order[n];
      var rest := cats - {last};
      assert IsOrderOf(order[..n], rest) by {
        forall c | c in rest
          ensures c in order[..n]
        {
          var i :| 0 <= i < |order| && order[i] == c;
          assert i != n;
        }
      }
      OrderMultiset(order[..n], rest);
      assert order == order[..n] + [last];
      assert cats == rest + {last};
    }
  }

  /** An order of a set is as long as the set is large. */
  lemma OrderLength(order: seq<string>, cats: set<string>)
    requires IsOrderOf(order, cats)
    ensures |order| == |cats|
  {
    OrderMultiset(order, cats);
    assert |multiset(order)| == |multiset(cats)|;
  }

  /** While no category receives more strings than it lists issues, the mean lies in
      [0, 1], so the reported score lies in [0, 100]. */
  lemma ApiMeanBounds(rows: seq<IssueRow>, order: seq<string>, issues: seq<string>)
    requires IsOrderOf(order, ApiCategories(rows)) && order != []
    requires forall c :: c in ApiCategories(rows) ==> |FoundIssues(issues, c)| <= |PossibleIssues(rows, c)|
    ensures 0.0 <= ApiGradeReport(rows, order, issues).report.overallScore <= 100.0
  {
    var scores := ApiScores(rows, ApiCategories(rows), issues);
    forall c | c in order
      ensures c in scores && 0.0 <= scores[c] <= 1.0
    {
      ApiScoreRange(|FoundIssues(issues, c)|, |PossibleIssues(rows, c)|);
    }
    UnitMean(order, scores);
  }

  /** The mean of values in [0, 1] lies in [0, 1]. */
  lemma UnitMean(keys: seq<string>, m: map<string, real>)
    requires keys != []
    requires forall k :: k in keys ==> k in m && 0.0 <= m[k] <= 1.0
    ensures 0.0 <= SumOver(keys, m) / (|keys| as real) <= 1.0
  {
    UnitSum(keys, m);
    var n, sum := |keys| as real, SumOver(keys, m);
    var q := sum / n;
    assert q * n == sum;
  }

  /** A sum of values in [0, 1] lies between 0 and the number of keys. */
  lemma {:induction false} UnitSum(keys: seq<string>, m: map<string, real>)
    requires forall k :: k in keys ==> k in m && 0.0 <= m[k] <= 1.0
    ensures 0.0 <= SumOver(keys, m) <= |keys| as real
  {
    if keys != [] {
      var n := |keys| - 1;
      assert keys[n] in keys;
      UnitSum(keys[..n], m);
    }
  }

  // ---------------------------------------------------------------------------
  // The PrivacyGrader class
  // ---------------------------------------------------------------------------

  class PrivacyGrader {
    /** `mapping_df` with its `privacy_issue` column lower-cased. */
    const mappingRows: seq<IssueRow>
    const validPrivacyIssues: set<string>
    const allParentCategories: set<string>
    /** The order in which the category set is iterated. */
    const categoryOrder: seq<string>
    const issuesByCategory: map<string, seq<string>>
    const gradeBoundaries: seq<(real, Grade)>

    predicate Valid()
    {
      && validPrivacyIssues == ApiIssueSet(mappingRows)
      && allParentCategories == ApiCategories(mappingRows)
      && IsOrderOf(categoryOrder, allParentCategories)
      && issuesByCategory == CreateApiCategoryMapping(mappingRows, allParentCategories)
      && gradeBoundaries == ApiBoundaries
    }

    /** `PrivacyGrader(csv_path)`, given the rows the CSV holds. */
    constructor (mappingDf: seq<IssueRow>)
      ensures Valid()
      ensures mappingRows == LowerRows(mappingDf)
      ensures allParentCategories == ApiCategories(mappingDf)
    {
      var rows := LowerRows(mappingDf);
      var categories := ApiCategories(rows);
      assert categories == ApiCategories(mappingDf) by {
        forall c | c in ApiCategories(mappingDf)
          ensures c in categories
        {
          var i :| 0 <= i < |mappingDf| && mappingDf[i].parentIssue == c;
          assert rows[i].parentIssue == c;
        }
      }
      var order := UniqueInOrder(ApiParents(rows));
      mappingRows := rows;
      validPrivacyIssues := ApiIssueSet(rows);
      allParentCategories := categories;
      categoryOrder := order;
      issuesByCategory := CreateApiCategoryMapping(rows, categories);
      gradeBoundaries := ApiBoundaries;
    }

    /** The first loop of `grade_privacy_issues`: the lower-cased texts filed under each
        taxonomy category, and the categories in order of first appearance. */
    method GroupIssues(privacyIssues: seq<string>) returns (found: map<string, seq<string>>, seen: seq<string>)
      ensures found.Keys <= allParentCategories
      ensures forall c :: c in allParentCategories ==> Get(found, c, []) == FoundIssues(privacyIssues, c)
      ensures forall c :: c in seen <==> c in found
      ensures forall c :: c in found ==> found[c] != []
      ensures forall i, j :: 0 <= i < j < |seen| ==> seen[i] != seen[j]
    {
      found, seen := map[], [];
      for i := 0 to |privacyIssues|
        invariant found.Keys <= allParentCategories
        invariant forall c :: c in allParentCategories ==> Get(found, c, []) == FoundIssues(privacyIssues[..i], c)
        invariant forall c :: c in seen <==> c in found
        invariant forall c :: c in found ==> found[c] != []
        invariant forall a, b :: 0 <= a < b < |seen| ==> seen[a] != seen[b]
      {
        var issue := privacyIssues[i];
        ghost var prev := found;
        HasColonIff(issue);
        if ':' in issue && ParentPart(issue) in allParentCategories {
          var parentIssue := ParentPart(issue);
          var privacyIssue := IssuePart(issue);
          if parentIssue !in found {
            seen := seen + [parentIssue];
          }
          found := found[parentIssue := Get(found, parentIssue, []) + [Lower(privacyIssue)]];
          forall c | c in allParentCategories
            ensures Get(found, c, []) == FoundIssues(privacyIssues[..i + 1], c)
          {
            FoundIssuesStep(privacyIssues, i, c);
            if c != parentIssue {
              assert Get(found, c, []) == Get(prev, c, []);
            }
          }
        } else {
          forall c | c in allParentCategories
            ensures Get(found, c, []) == FoundIssues(privacyIssues[..i + 1], c)
          {
            FoundIssuesStep(privacyIssues, i, c);
          }
        }
      }
      assert privacyIssues[..|privacyIssues|] == privacyIssues;
    }

    /** The second loop: each category that found something gets its share-based score,
        every other category keeps 1.0. */
    method ScoreCategories(privacyIssues: seq<string>) returns (categoryScores: map<string, real>)
      requires forall c :: c in allParentCategories ==>
        c in issuesByCategory && issuesByCategory[c] == PossibleIssues(mappingRows, c)
      ensures categoryScores.Keys == allParentCategories
      ensures forall c :: c in allParentCategories ==>
        categoryScores[c] == CategoryScoreOf(mappingRows, privacyIssues, c)
    {
      categoryScores := map c | c in allParentCategories :: 1.0;
      var found, seen := GroupIssues(privacyIssues);
      for t := 0 to |seen|
        invariant categoryScores.Keys == allParentCategories
        invariant forall j :: 0 <= j < t ==>
          categoryScores[seen[j]] == CategoryScoreOf(mappingRows, privacyIssues, seen[j])
        invariant forall j :: t <= j < |seen| ==> categoryScores[seen[j]] == 1.0
        invariant forall c :: c in allParentCategories && c !in found ==> categoryScores[c] == 1.0
      {
        var category := seen[t];
        assert category in found && category in categoryScores;
        var foundIssues := found[category];
        var possibleIssues := issuesByCategory[category];
        ghost var prev := categoryScores;
        assert foundIssues == FoundIssues(privacyIssues, category);
        assert possibleIssues == PossibleIssues(mappingRows, category);
        if |possibleIssues| > 0 {
          var score := 1.0 - (|foundIssues| as real) / (|possibleIssues| as real);
          assert score == ApiScore(|foundIssues|, |possibleIssues|);
          categoryScores := categoryScores[category := score];
        } else {
          assert categoryScores[category] == 1.0 == ApiScore(|foundIssues|, |possibleIssues|);
        }
        forall j | 0 <= j < |seen| && j != t
          ensures categoryScores[seen[j]] == prev[seen[j]]
        {
          assert seen[j] != category;
        }
      }
      ScoresFromSeen(mappingRows, privacyIssues, allParentCategories, found, seen, categoryScores);
    }

    /** `grade_privacy_issues`: the report of ApiGradeReport, computed by the source's
        loops. */
    method GradePrivacyIssues(privacyIssues: seq<string>) returns (r: ApiOutcome)
      requires Valid()
      ensures r == ApiGradeReport(mappingRows, categoryOrder, privacyIssues)
    {
      var categoryScores := ScoreCategories(privacyIssues);
      ApiScoresAgree(mappingRows, allParentCategories, privacyIssues, categoryScores);
      OrderLength(categoryOrder, allParentCategories);
      if |categoryScores| == 0 {
        return ZeroDivisionError;
      }
      var overallScore := SumOver(categoryOrder, categoryScores) / (|categoryOrder| as real);
      var overallGrade := ApiGrade(overallScore);
      r := Report(ApiReport(overallGrade, 100.0 * overallScore, categoryScores));
    }
  }

  /** After the second loop: the categories in `seen` hold their share-based score and
      the others hold 1.0, which is also their share-based score. */
  lemma ScoresFromSeen(rows: seq<IssueRow>, issues: seq<string>, categories: set<string>,
                       found: map<string, seq<string>>, seen: seq<string>, scores: map<string, real>)
    requires forall c :: c in categories ==> Get(found, c, []) == FoundIssues(issues, c)
    requires forall c :: c in seen <==> c in found
    requires found.Keys <= categories && scores.Keys == categories
    requires forall j :: 0 <= j < |seen| ==> scores[seen[j]] == CategoryScoreOf(rows, issues, seen[j])
    requires forall c :: c in categories && c !in found ==> scores[c] == 1.0
    ensures forall c :: c in categories ==> scores[c] == CategoryScoreOf(rows, issues, c)
  {
    forall c | c in categories
      ensures scores[c] == CategoryScoreOf(rows, issues, c)
    {
      if c in found {
        var j :| 0 <= j < |seen| && seen[j] == c;
      } else {
        assert FoundIssues(issues, c) == [];
      }
    }
  }

  /** A score dictionary that agrees with ApiScore on every category is ApiScores'. */
  lemma ApiScoresAgree(rows: seq<IssueRow>, categories: set<string>, issues: seq<string>, scores: map<string, real>)
    requires scores.Keys == categories
    requires forall c :: c in categories ==>
      scores[c] == CategoryScoreOf(rows, issues, c)
    ensures ApiScores(rows, categories, issues) == scores
  {
  }
}
