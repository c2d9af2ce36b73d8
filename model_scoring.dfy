/** The rules of the grading engine in src/models/privacy_grader.py, as functions:
    the taxonomy tables built at construction, the split of detected issues into valid
    and unknown ones, the classification-weighted category score with its severity caps,
    the weighted overall score and the grade scale. The class in ModelGrader computes
    the same values step by step and is proved against these functions. */
module ModelScoring {
  import opened Collections
  import opened Text
  import opened Grades

  datatype Classification = Blocker | Bad | Neutral | Good

  /** One taxonomy row: columns `parent_issue`, `privacy_issue`, `classification`. */
  datatype Row = Row(parentIssue: string, privacyIssue: string, classification: Classification)

  /** The error `.iloc[0]` raises when a classification lookup finds no row. */
  datatype Result<T> = Ok(value: T) | IndexError

  // ---------------------------------------------------------------------------
  // Taxonomy tables (PrivacyGrader.__init__ and its two mapping helpers)
  // ---------------------------------------------------------------------------

  /** The copy of the table that `PrivacyGrader` keeps, with the `privacy_issue` column lower-cased. */
  function LowerIssues(rows: seq<Row>): seq<Row>
  {
    seq(|rows|, i requires 0 <= i < |rows| =>
      Row(rows[i].parentIssue, Lower(rows[i].privacyIssue), rows[i].classification))
  }

  /** The set of issue texts of a table. */
  function IssueSet(rows: seq<Row>): set<string>
  {
    set i | 0 <= i < |rows| :: rows[i].privacyIssue
  }

  /** The set of parent categories of a table. */
  function ParentCategories(rows: seq<Row>): set<string>
  {
    set i | 0 <= i < |rows| :: rows[i].parentIssue
  }

  /** Lower-casing the issue column keeps the categories. */
  lemma LowerIssuesCategories(rows: seq<Row>)
    ensures ParentCategories(LowerIssues(rows)) == ParentCategories(rows)
  {
    var lowered := LowerIssues(rows);
    assert forall c :: c in ParentCategories(rows) ==> c in ParentCategories(lowered) by {
      forall c | c in ParentCategories(rows)
        ensures c in ParentCategories(lowered)
      {
        var i :| 0 <= i < |rows| && rows[i].parentIssue == c;
        assert lowered[i].parentIssue == c;
      }
    }
  }

  /** The issues of one category, in table order (one entry of `issues_by_category`). */
  function CategoryIssues(rows: seq<Row>, category: string): seq<string>
  {
    if rows == [] then []
    else
      var last := rows[|rows| - 1];
      CategoryIssues(rows[..|rows| - 1], category)
        + (if last.parentIssue == category then [last.privacyIssue] else [])
  }

  /** An issue is listed under a category exactly when some row puts it there; so every
      category of the table has at least one issue and any other name has none. */
  lemma {:induction false} CategoryIssuesMembers(rows: seq<Row>, category: string, x: string)
    ensures x in CategoryIssues(rows, category) <==>
      exists i :: 0 <= i < |rows| && rows[i].parentIssue == category && rows[i].privacyIssue == x
  {
    if rows != [] {
      var n := |rows| - 1;
      CategoryIssuesMembers(rows[..n], category, x);
      if x in CategoryIssues(rows, category) && x !in CategoryIssues(rows[..n], category) {
        assert rows[n].parentIssue == category && rows[n].privacyIssue == x;
      }
      if exists i :: 0 <= i < |rows| && rows[i].parentIssue == category && rows[i].privacyIssue == x {
        var i :| 0 <= i < |rows| && rows[i].parentIssue == category && rows[i].privacyIssue == x;
        if i < n {
          assert rows[..n][i] == rows[i];
        }
      }
    }
  }

  lemma {:induction false} CategoryIssuesNonEmpty(rows: seq<Row>, category: string)
    ensures CategoryIssues(rows, category) != [] <==> category in ParentCategories(rows)
  {
    if category in ParentCategories(rows) {
      var i :| 0 <= i < |rows| && rows[i].parentIssue == category;
      CategoryIssuesMembers(rows, category, rows[i].privacyIssue);
    }
    if CategoryIssues(rows, category) != [] {
      var x := CategoryIssues(rows, category)[0];
      CategoryIssuesMembers(rows, category, x);
    }
  }

  /** `_create_case_mapping`: lower-cased issue text to its spelling in the table;
      when two rows share a lower-cased text, the later row's spelling is kept. */
  function CreateCaseMapping(rows: seq<Row>): map<string, string>
  {
    DictFromPairs(seq(|rows|, i requires 0 <= i < |rows| =>
      (Lower(rows[i].privacyIssue), rows[i].privacyIssue)))
  }

  /** The case mapping covers exactly the lower-cased issue texts, and every spelling it
      stores lower-cases back to its key. */
  lemma CaseMappingRestores(rows: seq<Row>, k: string)
    ensures k in CreateCaseMapping(rows) <==> k in IssueSet(LowerIssues(rows))
    ensures k in CreateCaseMapping(rows) ==> Lower(CreateCaseMapping(rows)[k]) == k
  {
    var pairs := seq(|rows|, i requires 0 <= i < |rows| =>
      (Lower(rows[i].privacyIssue), rows[i].privacyIssue));
    var lowered := LowerIssues(rows);
    if k in CreateCaseMapping(rows) {
      DictFromPairsFrom(pairs, k);
      var i :| 0 <= i < |pairs| && pairs[i] == (k, DictFromPairs(pairs)[k]);
      assert lowered[i].privacyIssue == k;
    }
    if k in IssueSet(lowered) {
      var i :| 0 <= i < |lowered| && lowered[i].privacyIssue == k;
      assert pairs[i].0 == k;
    }
  }

  /** The later of two rows with the same lower-cased text decides the case mapping. */
  lemma CaseMappingLastWins(rows: seq<Row>, i: nat)
    requires i < |rows|
    requires forall j :: i < j < |rows| ==> Lower(rows[j].privacyIssue) != Lower(rows[i].privacyIssue)
    ensures Lower(rows[i].privacyIssue) in CreateCaseMapping(rows)
    ensures CreateCaseMapping(rows)[Lower(rows[i].privacyIssue)] == rows[i].privacyIssue
  {
    var pairs := seq(|rows|, i requires 0 <= i < |rows| =>
      (Lower(rows[i].privacyIssue), rows[i].privacyIssue));
    DictFromPairsLastWins(pairs, i);
  }

  // ---------------------------------------------------------------------------
  // Validation (_validate_issues)
  // ---------------------------------------------------------------------------

  predicate HasColon(s: string)
  {
    FirstIndex(s, ':') < |s|
  }

  /** `':' in s`. */
  lemma HasColonIff(s: string)
    ensures HasColon(s) <==> ':' in s
  {
    FirstIndexSpec(s, ':');
    if ':' in s {
      var j :| 0 <= j < |s| && s[j] == ':';
    }
  }

  /** The stripped text before the first `:`. */
  function ParentPart(s: string): string
    requires HasColon(s)
  {
    Strip(s[..FirstIndex(s, ':')])
  }

  /** The stripped text after the first `:`. */
  function IssuePart(s: string): string
    requires HasColon(s)
  {
    Strip(s[FirstIndex(s, ':') + 1..])
  }

  /** Valid: has a `:` and the lower-cased text after it is a known issue. The parent
      before the `:` plays no part. */
  predicate IsValidIssue(s: string, known: set<string>)
  {
    HasColon(s) && Lower(IssuePart(s)) in known
  }

  /** The pair (valid, unknown) `_validate_issues` returns. */
  function Partition(issues: seq<string>, known: set<string>): (seq<string>, seq<string>)
  {
    if issues == [] then ([], [])
    else
      var (valid, unknown) := Partition(issues[..|issues| - 1], known);
      var s := issues[|issues| - 1];
      if IsValidIssue(s, known) then (valid + [s], unknown) else (valid, unknown + [s])
  }

  /** Every input string lands in exactly one of the two lists, the valid list holds only
      valid strings and the unknown list only the others; `PartitionOrder` adds that the
      order is kept within each. */
  lemma {:induction false} PartitionSpec(issues: seq<string>, known: set<string>)
    ensures var (valid, unknown) := Partition(issues, known);
      && multiset(valid) + multiset(unknown) == multiset(issues)
      && |valid| + |unknown| == |issues|
      && (forall s :: s in valid ==> IsValidIssue(s, known))
      && (forall s :: s in unknown ==> !IsValidIssue(s, known))
  {
    if issues != [] {
      var n := |issues| - 1;
      PartitionSpec(issues[..n], known);
      assert issues == issues[..n] + [issues[n]];
    }
  }

  /** The order of the input is kept on both sides: the valid list is the input with the
      invalid strings taken out, and the unknown list is the input with the valid ones
      taken out. */
  lemma {:induction false} PartitionOrder(issues: seq<string>, known: set<string>)
    ensures Partition(issues, known).0 == Filter(issues, s => IsValidIssue(s, known))
    ensures Partition(issues, known).1 == Filter(issues, s => !IsValidIssue(s, known))
  {
    if issues != [] {
      var n := |issues| - 1;
      PartitionOrder(issues[..n], known);
      assert issues == issues[..n] + [issues[n]];
      FilterSnoc(issues[..n], issues[n], s => IsValidIssue(s, known));
      FilterSnoc(issues[..n], issues[n], s => !IsValidIssue(s, known));
    }
  }

  /** Both lists are empty exactly when the input is. */
  lemma PartitionEmpty(issues: seq<string>, known: set<string>)
    ensures Partition(issues, known) == ([], []) <==> issues == []
  {
    PartitionSpec(issues, known);
  }

  /** Nothing is unknown exactly when every string is valid. */
  lemma PartitionAllValid(issues: seq<string>, known: set<string>)
    ensures Partition(issues, known).1 == [] <==> forall s :: s in issues ==> IsValidIssue(s, known)
  {
    var (valid, unknown) := Partition(issues, known);
    PartitionSpec(issues, known);
    if unknown != [] {
      assert unknown[0] in multiset(issues);
    } else {
      forall s | s in issues
        ensures IsValidIssue(s, known)
      {
        assert s in multiset(issues);
        assert multiset(unknown) == multiset{};
        assert s in multiset(valid);
      }
    }
  }

  /** A string without `:` is always unknown. */
  lemma PartitionNoColon(issues: seq<string>, known: set<string>, s: string)
    requires s in issues && !HasColon(s)
    ensures s in Partition(issues, known).1
  {
    PartitionSpec(issues, known);
    assert s in multiset(issues);
  }

  /** Only the text after the first `:` decides validity: two strings with the same
      issue text and any colon-free parents are both valid or both unknown. */
  lemma ParentIgnored(p: string, q: string, t: string, known: set<string>)
    requires ':' !in p && ':' !in q
    ensures IsValidIssue(p + [':'] + t, known) == IsValidIssue(q + [':'] + t, known)
  {
    ColonCut(p, t);
    ColonCut(q, t);
  }

  lemma ColonCut(p: string, t: string)
    requires ':' !in p
    ensures HasColon(p + [':'] + t)
    ensures FirstIndex(p + [':'] + t, ':') == |p|
    ensures ParentPart(p + [':'] + t) == Strip(p)
    ensures IssuePart(p + [':'] + t) == Strip(t)
  {
    var s := p + [':'] + t;
    FirstIndexSpec(s, ':');
    assert s[|p|] == ':';
    assert forall j :: 0 <= j < |p| ==> s[j] == p[j];
    assert s[..|p|] == p;
    assert s[|p| + 1..] == t;
  }

  // ---------------------------------------------------------------------------
  // Category scores (_calculate_category_scores)
  // ---------------------------------------------------------------------------

  /** `classification_weights`. */
  function ClassificationWeight(c: Classification): real
  {
    match c
    case Blocker => -2.0
    case Bad => -0.7
    case Neutral => 0.0
    case Good => 0.1
  }

  /** The contribution of one valid string to `category`: its lower-cased issue text when
      the text before its `:` names the category, nothing otherwise. */
  function Filed(s: string, category: string): seq<string>
  {
    if HasColon(s) && ParentPart(s) == category then [Lower(IssuePart(s))] else []
  }

  /** The lower-cased issue texts of the valid strings filed under `category`, in order
      and with repeats. */
  function FoundIssues(valid: seq<string>, category: string): seq<string>
  {
    FlatMap(valid, s => Filed(s, category))
  }

  /** A category finds nothing when no valid string names it as parent. */
  lemma FoundIssuesEmpty(valid: seq<string>, category: string)
    ensures FoundIssues(valid, category) == [] <==>
      forall k :: 0 <= k < |valid| ==> !(HasColon(valid[k]) && ParentPart(valid[k]) == category)
  {
    FlatMapEmpty(valid, s => Filed(s, category));
  }

  /** One more valid string adds what it files under the category. */
  lemma FoundIssuesStep(valid: seq<string>, i: nat, category: string)
    requires i < |valid|
    ensures FoundIssues(valid[..i + 1], category) == FoundIssues(valid[..i], category) + Filed(valid[i], category)
  {
    FlatMapPrefix(valid, s => Filed(s, category), i);
  }

  /** Every found text comes from a valid string filed under the category. */
  lemma FoundIssuesFrom(valid: seq<string>, category: string, j: nat)
    requires j < |FoundIssues(valid, category)|
    ensures exists k ::
              && 0 <= k < |valid| && HasColon(valid[k]) && ParentPart(valid[k]) == category
              && FoundIssues(valid, category)[j] == Lower(IssuePart(valid[k]))
  {
    FlatMapFrom(valid, s => Filed(s, category), j);
  }

  /** And every valid string filed under the category contributes its text. */
  lemma FoundIssuesHas(valid: seq<string>, category: string, k: nat)
    requires k < |valid| && HasColon(valid[k]) && ParentPart(valid[k]) == category
    ensures Lower(IssuePart(valid[k])) in FoundIssues(valid, category)
  {
    FlatMapHas(valid, s => Filed(s, category), k, Lower(IssuePart(valid[k])));
  }

  /** The classification of the first row of `category` whose lower-cased text equals the
      lower-cased issue, or None where `.iloc[0]` would find no row. */
  function Classify(rows: seq<Row>, category: string, issue: string): Option<Classification>
  {
    if rows == [] then None
    else if rows[0].parentIssue == category && Lower(rows[0].privacyIssue) == Lower(issue)
    then Some(rows[0].classification)
    else Classify(rows[1..], category, issue)
  }

  /** A lookup succeeds exactly when the category has a row with that text, and then it
      answers with the classification of the first such row. */
  lemma {:induction false} ClassifySpec(rows: seq<Row>, category: string, issue: string)
    ensures Classify(rows, category, issue).Some? <==>
      exists i :: 0 <= i < |rows| && rows[i].parentIssue == category
        && Lower(rows[i].privacyIssue) == Lower(issue)
    ensures Classify(rows, category, issue).Some? ==>
      exists i :: 0 <= i < |rows| && rows[i].parentIssue == category
        && Lower(rows[i].privacyIssue) == Lower(issue)
        && Classify(rows, category, issue).value == rows[i].classification
        && forall j :: 0 <= j < i ==> !(rows[j].parentIssue == category
                                          && Lower(rows[j].privacyIssue) == Lower(issue))
  {
    if rows != [] {
      ClassifySpec(rows[1..], category, issue);
      if !(rows[0].parentIssue == category && Lower(rows[0].privacyIssue) == Lower(issue)) {
        if exists i :: 0 <= i < |rows| && rows[i].parentIssue == category
             && Lower(rows[i].privacyIssue) == Lower(issue) {
          var i :| 0 <= i < |rows| && rows[i].parentIssue == category
            && Lower(rows[i].privacyIssue) == Lower(issue);
          assert rows[1..][i - 1] == rows[i];
        }
        if Classify(rows, category, issue).Some? {
          var i :| 0 <= i < |rows[1..]| && rows[1..][i].parentIssue == category
            && Lower(rows[1..][i].privacyIssue) == Lower(issue)
            && Classify(rows, category, issue).value == rows[1..][i].classification
            && forall j :: 0 <= j < i ==> !(rows[1..][j].parentIssue == category
                                              && Lower(rows[1..][j].privacyIssue) == Lower(issue));
          assert forall j :: 1 <= j < i + 1 ==> rows[j] == rows[1..][j - 1];
        }
      }
    }
  }

  predicate AllClassified(rows: seq<Row>, category: string, found: seq<string>)
  {
    forall j :: 0 <= j < |found| ==> Classify(rows, category, found[j]).Some?
  }

  /** The classification of every found issue, in order. */
  function Classifications(rows: seq<Row>, category: string, found: seq<string>): seq<Classification>
    requires AllClassified(rows, category, found)
  {
    seq(|found|, j requires 0 <= j < |found| => Classify(rows, category, found[j]).value)
  }

  /** 1.0 plus the classification weight of every issue, accumulated in order. */
  function AdditiveScore(cls: seq<Classification>): real
  {
    if cls == [] then 1.0 else AdditiveScore(cls[..|cls| - 1]) + ClassificationWeight(cls[|cls| - 1])
  }

  /** The accumulated score depends only on how many issues of each kind were found:
      every blocker costs 2.0, every bad issue 0.7 and every good one adds 0.1. */
  lemma {:induction false} AdditiveScoreCounts(cls: seq<Classification>)
    ensures AdditiveScore(cls) ==
      1.0 - 2.0 * Count(cls, Blocker) as real - 0.7 * Count(cls, Bad) as real + 0.1 * Count(cls, Good) as real
  {
    if cls != [] {
      AdditiveScoreCounts(cls[..|cls| - 1]);
    }
  }

  function Min(x: real, y: real): real { if x <= y then x else y }
  function Max(x: real, y: real): real { if x >= y then x else y }

  /** The score before weighting: the accumulated score, capped at 0.3 when a blocker was
      found, otherwise at 0.7 when a bad issue was, then floored at 0.7 when every issue
      is good. */
  function SeverityScore(cls: seq<Classification>): real
  {
    var base := AdditiveScore(cls);
    var capped :=
      if Count(cls, Blocker) > 0 then Min(base, 0.3)
      else if Count(cls, Bad) > 0 then Min(base, 0.7)
      else base;
    if |cls| == Count(cls, Good) then Max(capped, 0.7) else capped
  }

  /** Any blocker caps the score at 0.3, however many good issues accompany it. */
  lemma BlockerCap(cls: seq<Classification>)
    requires Blocker in cls
    ensures SeverityScore(cls) <= 0.3
  {
    CountPositive(cls, Blocker);
    CountPositive(cls, Good);
    assert Count(cls, Good) < |cls| by {
      CountAtMost(cls, Good);
      CountBelowLength(cls, Good, Blocker);
    }
  }

  /** Without a blocker, any bad issue caps the score at 0.7. */
  lemma BadCap(cls: seq<Classification>)
    requires Bad in cls && Blocker !in cls
    ensures SeverityScore(cls) <= 0.7
  {
    CountPositive(cls, Blocker);
    CountPositive(cls, Bad);
    CountBelowLength(cls, Good, Bad);
  }

  /** The all-good floor never changes anything: an all-good list already scores
      1.0 + 0.1 per issue, above the floor. */
  lemma AllGoodFloorInert(cls: seq<Classification>)
    requires cls != [] && forall j :: 0 <= j < |cls| ==> cls[j] == Good
    ensures AdditiveScore(cls) >= 1.1
    ensures SeverityScore(cls) == AdditiveScore(cls) == 1.0 + 0.1 * |cls| as real
  {
    AllSameCount(cls, Good);
    AdditiveScoreCounts(cls);
    CountPositive(cls, Blocker);
    CountPositive(cls, Bad);
    assert Blocker !in cls && Bad !in cls;
  }

  /** Neutral issues leave the score at 1.0. */
  lemma NeutralOnly(cls: seq<Classification>)
    requires cls != [] && forall j :: 0 <= j < |cls| ==> cls[j] == Neutral
    ensures SeverityScore(cls) == 1.0
  {
    AllSameCount(cls, Neutral);
    AdditiveScoreCounts(cls);
    CountPositive(cls, Blocker);
    CountPositive(cls, Bad);
    CountPositive(cls, Good);
    assert Blocker !in cls && Bad !in cls && Good !in cls;
  }

  lemma {:induction false} CountAtMost<T>(s: seq<T>, x: T)
    ensures Count(s, x) <= |s|
  {
    if s != [] {
      CountAtMost(s[..|s| - 1], x);
    }
  }

  lemma {:induction false} CountBelowLength<T>(s: seq<T>, x: T, y: T)
    requires y in s && y != x
    ensures Count(s, x) < |s|
  {
    var n := |s| - 1;
    CountAtMost(s[..n], x);
    if s[n] != y {
      assert y in s[..n] by {
        var i :| 0 <= i < |s| && s[i] == y;
        assert s[..n][i] == y;
      }
      CountBelowLength(s[..n], x, y);
    }
  }

  lemma {:induction false} AllSameCount<T>(s: seq<T>, x: T)
    requires forall j :: 0 <= j < |s| ==> s[j] == x
    ensures Count(s, x) == |s|
  {
    if s != [] {
      AllSameCount(s[..|s| - 1], x);
    }
  }

  /** `max(min(x, 1.0), 0.0)`. */
  function Clamp(x: real): (r: real)
    ensures 0.0 <= r <= 1.0
    ensures 0.0 <= x <= 1.0 ==> r == x
  {
    Max(Min(x, 1.0), 0.0)
  }

  /** The score of a category with found issues: severity score times the weight, clamped. */
  function WeightedScore(cls: seq<Classification>, weight: real): real
  {
    Clamp(SeverityScore(cls) * weight)
  }

  /** The entry of one category in the dictionary `_calculate_category_scores` returns,
      or None when one of its found issues has no row in that category (the IndexError). */
  function CategoryScore(rows: seq<Row>, weights: map<string, real>, valid: seq<string>, category: string): Option<real>
    requires category in weights
  {
    var found := FoundIssues(valid, category);
    if found == [] then Some(1.0)
    else if !AllClassified(rows, category, found) then None
    else Some(WeightedScore(Classifications(rows, category, found), weights[category]))
  }

  /** Every category score lies in [0, 1]. */
  lemma CategoryScoreBounds(rows: seq<Row>, weights: map<string, real>, valid: seq<string>, category: string)
    requires category in weights
    requires CategoryScore(rows, weights, valid, category).Some?
    ensures 0.0 <= CategoryScore(rows, weights, valid, category).value <= 1.0
  {
  }

  /** A category no valid string names keeps exactly 1.0, whatever its weight. */
  lemma UntouchedCategory(rows: seq<Row>, weights: map<string, real>, valid: seq<string>, category: string)
    requires category in weights
    requires forall k :: 0 <= k < |valid| ==> !(HasColon(valid[k]) && ParentPart(valid[k]) == category)
    ensures CategoryScore(rows, weights, valid, category) == Some(1.0)
  {
    FoundIssuesEmpty(valid, category);
  }

  /** A blocker among a category's issues caps its weighted score at 0.3 times its
      (non-negative) weight. */
  lemma BlockerCapsCategory(rows: seq<Row>, weights: map<string, real>, valid: seq<string>, category: string, k: nat)
    requires category in weights && weights[category] >= 0.0
    requires k < |valid| && HasColon(valid[k]) && ParentPart(valid[k]) == category
    requires Classify(rows, category, Lower(IssuePart(valid[k]))) == Some(Blocker)
    requires CategoryScore(rows, weights, valid, category).Some?
    ensures CategoryScore(rows, weights, valid, category).value <= 0.3 * weights[category]
  {
    var found := FoundIssues(valid, category);
    var issue := Lower(IssuePart(valid[k]));
    FoundIssuesHas(valid, category, k);
    var j :| 0 <= j < |found| && found[j] == issue;
    FoundBlockerCap(rows, category, found, weights[category], j);
  }

  lemma FoundBlockerCap(rows: seq<Row>, category: string, found: seq<string>, w: real, j: nat)
    requires AllClassified(rows, category, found) && w >= 0.0
    requires j < |found| && Classify(rows, category, found[j]) == Some(Blocker)
    ensures WeightedScore(Classifications(rows, category, found), w) <= 0.3 * w
  {
    var cls := Classifications(rows, category, found);
    assert cls[j] == Blocker;
    BlockerCap(cls);
    ScaledCap(SeverityScore(cls), 0.3, w);
  }

  /** A capped score stays capped after weighting and clamping. */
  lemma ScaledCap(s: real, cap: real, w: real)
    requires s <= cap && 0.0 <= cap && w >= 0.0
    ensures Clamp(s * w) <= cap * w
  {
    assert cap * w - s * w == (cap - s) * w;
    assert 0.0 <= (cap - s) * w;
    assert 0.0 <= cap * w;
  }

  // ---------------------------------------------------------------------------
  // Overall score (_calculate_overall_score)
  // ---------------------------------------------------------------------------

  /** Sum of `m[k]` over the keys, in the order given. */
  function SumOver(keys: seq<string>, m: map<string, real>): real
    requires forall k :: k in keys ==> k in m
  {
    if keys == [] then 0.0 else SumOver(keys[..|keys| - 1], m) + m[keys[|keys| - 1]]
  }

  /** `score * weight` per category. */
  function Products(scores: map<string, real>, weights: map<string, real>): map<string, real>
  {
    map k | k in scores.Keys * weights.Keys :: scores[k] * weights[k]
  }

  /** The weighted mean of the scores over the keys of the score dictionary, taken in
      dictionary order; 0.0 when the weights add up to zero. */
  function OverallScore(keys: seq<string>, scores: map<string, real>, weights: map<string, real>): real
    requires forall k :: k in keys ==> k in scores && k in weights
  {
    var total := SumOver(keys, weights);
    if total == 0.0 then 0.0 else SumOver(keys, Products(scores, weights)) / total
  }

  /** With scores in [0, 1] and non-negative weights the overall score is in [0, 1]. */
  lemma OverallScoreBounds(keys: seq<string>, scores: map<string, real>, weights: map<string, real>)
    requires forall k :: k in keys ==> k in scores && k in weights
    requires forall k :: k in keys ==> 0.0 <= scores[k] <= 1.0 && weights[k] >= 0.0
    ensures 0.0 <= OverallScore(keys, scores, weights) <= 1.0
  {
    var total := SumOver(keys, weights);
    var weighted := SumOver(keys, Products(scores, weights));
    WeightedSumBounds(keys, scores, weights);
    if total != 0.0 {
      RatioBounds(weighted, total);
    }
  }

  lemma RatioBounds(a: real, b: real)
    requires 0.0 <= a <= b && b != 0.0
    ensures 0.0 <= a / b <= 1.0
  {
    assert b > 0.0;
  }

  lemma WeightedSumBounds(keys: seq<string>, scores: map<string, real>, weights: map<string, real>)
    requires forall k :: k in keys ==> k in scores && k in weights
    requires forall k :: k in keys ==> 0.0 <= scores[k] <= 1.0 && weights[k] >= 0.0
    ensures 0.0 <= SumOver(keys, Products(scores, weights)) <= SumOver(keys, weights)
  {
    var p := Products(scores, weights);
    forall k | k in keys
      ensures k in p && 0.0 <= p[k] <= weights[k]
    {
      var sk, wk := scores[k], weights[k];
      ProductBounds(sk, wk);
      assert p[k] == sk * wk;
    }
    SumOverBounded(keys, weights, p);
  }

  /** Summands between 0 and their bounds give a sum between 0 and the bounds' sum. */
  lemma {:induction false} SumOverBounded(keys: seq<string>, bound: map<string, real>, m: map<string, real>)
    requires forall k :: k in keys ==> k in bound && k in m && 0.0 <= m[k] <= bound[k]
    ensures 0.0 <= SumOver(keys, m) <= SumOver(keys, bound)
  {
    if keys != [] {
      SumOverBounded(keys[..|keys| - 1], bound, m);
    }
  }

  lemma ProductBounds(s: real, w: real)
    requires 0.0 <= s <= 1.0 && w >= 0.0
    ensures 0.0 <= s * w <= w
  {
    assert w - s * w == (1.0 - s) * w;
  }

  /** When every category has the same score, the overall score is that score. */
  lemma OverallScoreOfConstant(keys: seq<string>, scores: map<string, real>, weights: map<string, real>, s: real)
    requires forall k :: k in keys ==> k in scores && k in weights
    requires forall k :: k in keys ==> scores[k] == s
    requires SumOver(keys, weights) != 0.0
    ensures OverallScore(keys, scores, weights) == s
  {
    WeightedSumOfConstant(keys, scores, weights, s);
    OverallScoreOfScaled(keys, scores, weights, s);
  }

  lemma OverallScoreOfScaled(keys: seq<string>, scores: map<string, real>, weights: map<string, real>, s: real)
    requires forall k :: k in keys ==> k in scores && k in weights
    requires SumOver(keys, Products(scores, weights)) == s * SumOver(keys, weights)
    requires SumOver(keys, weights) != 0.0
    ensures OverallScore(keys, scores, weights) == s
  {
    DivCancel(SumOver(keys, Products(scores, weights)), s, SumOver(keys, weights));
  }

  lemma DivCancel(w: real, a: real, t: real)
    requires t != 0.0 && w == a * t
    ensures w / t == a
  {
  }


  lemma WeightedSumOfConstant(keys: seq<string>, scores: map<string, real>, weights: map<string, real>, s: real)
    requires forall k :: k in keys ==> k in scores && k in weights
    requires forall k :: k in keys ==> scores[k] == s
    ensures SumOver(keys, Products(scores, weights)) == s * SumOver(keys, weights)
  {
    SumOverScaled(keys, weights, Products(scores, weights), s);
  }

  /** Scaling every summand scales the sum. */
  lemma {:induction false} SumOverScaled(keys: seq<string>, m: map<string, real>, scaled: map<string, real>, s: real)
    requires forall k :: k in keys ==> k in m && k in scaled && scaled[k] == s * m[k]
    ensures SumOver(keys, scaled) == s * SumOver(keys, m)
  {
    if keys != [] {
      var init, k := keys[..|keys| - 1], keys[|keys| - 1];
      SumOverScaled(init, m, scaled, s);
      ScaledStep(SumOver(keys, scaled), SumOver(init, scaled), scaled[k], SumOver(keys, m), SumOver(init, m), m[k], s);
    }
  }

  /** `total = a + w` scaled by `s`, one term at a time. */
  lemma ScaledStep(sum: real, init: real, last: real, total: real, a: real, w: real, s: real)
    requires sum == init + last && init == s * a && last == s * w && total == a + w
    ensures sum == s * total
  {
  }

  /** Sums over the keys do not depend on their order: the overall score is the same for
      every iteration order of the category set. */
  lemma {:induction false} SumOverPermutation(keys: seq<string>, other: seq<string>, m: map<string, real>)
    requires forall k :: k in keys ==> k in m
    requires multiset(keys) == multiset(other)
    ensures forall k :: k in other ==> k in m
    ensures SumOver(keys, m) == SumOver(other, m)
  {
    SameMembers(keys, other);
    if other != [] {
      var n := |other| - 1;
      var last := other[n];
      assert last in multiset(keys);
      var i :| 0 <= i < |keys| && keys[i] == last;
      var rest := keys[..i] + keys[i + 1..];
      RemoveAt(keys, i);
      assert other == other[..n] + [last];
      assert multiset(other) == multiset(other[..n]) + multiset{last};
      MultisetCancel(multiset(rest), multiset(other[..n]), last);
      SumOverRemove(keys, i, m);
      SumOverPermutation(rest, other[..n], m);
    }
  }

  lemma SameMembers(keys: seq<string>, other: seq<string>)
    requires multiset(keys) == multiset(other)
    ensures forall k :: k in other <==> k in keys
  {
    forall k
      ensures k in other <==> k in keys
    {
      assert k in other <==> k in multiset(other);
      assert k in keys <==> k in multiset(keys);
    }
  }

  lemma MultisetCancel<T>(a: multiset<T>, b: multiset<T>, x: T)
    requires a + multiset{x} == b + multiset{x}
    ensures a == b
  {
    forall y
      ensures a[y] == b[y]
    {
      assert (a + multiset{x})[y] == a[y] + multiset{x}[y];
      assert (b + multiset{x})[y] == b[y] + multiset{x}[y];
    }
  }

  lemma RemoveAt(keys: seq<string>, i: nat)
    requires i < |keys|
    ensures multiset(keys) == multiset(keys[..i] + keys[i + 1..]) + multiset{keys[i]}
  {
    assert keys == keys[..i] + [keys[i]] + keys[i + 1..];
  }

  lemma {:induction false} SumOverRemove(keys: seq<string>, i: nat, m: map<string, real>)
    requires i < |keys|
    requires forall k :: k in keys ==> k in m
    ensures forall k :: k in keys[..i] + keys[i + 1..] ==> k in m
    ensures SumOver(keys, m) == SumOver(keys[..i] + keys[i + 1..], m) + m[keys[i]]
  {
    var n := |keys| - 1;
    if i == n {
      assert keys[..i] + keys[i + 1..] == keys[..n];
    } else {
      var prefix := keys[..n];
      SumOverRemove(prefix, i, m);
      var rest := keys[..i] + keys[i + 1..];
      assert rest[..|rest| - 1] == prefix[..i] + prefix[i + 1..];
      assert rest[|rest| - 1] == keys[n];
    }
  }

  lemma OverallScoreOrderFree(keys: seq<string>, other: seq<string>, scores: map<string, real>, weights: map<string, real>)
    requires forall k :: k in keys ==> k in scores && k in weights
    requires multiset(keys) == multiset(other)
    ensures forall k :: k in other ==> k in scores && k in weights
    ensures OverallScore(keys, scores, weights) == OverallScore(other, scores, weights)
  {
    SumOverPermutation(keys, other, weights);
    SumOverPermutation(keys, other, Products(scores, weights));
    assert forall k :: k in other ==> k in scores by {
      forall k | k in other ensures k in scores {
        assert k in multiset(other);
      }
    }
  }

  // ---------------------------------------------------------------------------
  // Grades (_get_grade)
  // ---------------------------------------------------------------------------

  /** `grade_boundaries`, sorted from the highest threshold down. */
  const GradeBoundaries: seq<(real, Grade)> := [(0.95, A), (0.85, B), (0.75, C), (0.65, D)]

  /** The grade of a score: boundaries are inclusive lower bounds. */
  function GetGrade(score: real): (g: Grade)
    ensures g == A <==> score >= 0.95
    ensures g == B <==> 0.85 <= score < 0.95
    ensures g == C <==> 0.75 <= score < 0.85
    ensures g == D <==> 0.65 <= score < 0.75
    ensures g == F <==> score < 0.65
  {
    var b := GradeBoundaries;
    GradeForStep(b, score);
    GradeForStep(b[1..], score);
    GradeForStep(b[2..], score);
    GradeForStep(b[3..], score);
    assert b[1..][1..] == b[2..] && b[2..][1..] == b[3..] && b[3..][1..] == [];
    GradeFor(b, score)
  }

  /** A higher score never gets a lower grade. */
  lemma GetGradeMonotone(s: real, t: real)
    requires s <= t
    ensures Rank(GetGrade(s)) <= Rank(GetGrade(t))
  {
    DescendingSteps(GradeBoundaries);
    GradeForMonotone(GradeBoundaries, s, t);
  }
}
