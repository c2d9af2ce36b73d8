/** The string steps of src/api_service/api/utils/process_pdf.py around the language
    model call: the taxonomy is listed one `"<parent>: <issue>"` line per row for the
    prompt, and the model's comma-separated answer is cut into pieces, each labelled with
    the parent the taxonomy gives its lower-cased text. The labelled strings are what the
    API grader grades. */
module ProcessPdf {
  import opened Collections
  import opened Text
  import opened ModelScoring
  import opened ApiGrader

  /** `f"{parent_issue}: {privacy_issue}"`. */
  function Labelled(parent: string, issue: string): string
  {
    parent + ": " + issue
  }

  /** The lines of `load_privacy_issues`, one per taxonomy row, in row order. */
  function IssueLines(rows: seq<IssueRow>): seq<string>
  {
    seq(|rows|, i requires 0 <= i < |rows| => Labelled(rows[i].parentIssue, rows[i].privacyIssue))
  }

  /** `load_privacy_issues`: the lines joined by newlines. */
  function LoadPrivacyIssues(rows: seq<IssueRow>): string
  {
    JoinWith(IssueLines(rows), '\n')
  }

  /** The prompt's taxonomy text splits back into exactly one line per row, in row order,
      when no cell holds a newline; an empty taxonomy gives the empty text. */
  lemma LoadPrivacyIssuesLines(rows: seq<IssueRow>)
    requires forall i :: 0 <= i < |rows| ==> '\n' !in rows[i].parentIssue && '\n' !in rows[i].privacyIssue
    ensures rows == [] ==> LoadPrivacyIssues(rows) == ""
    ensures rows != [] ==> SplitOn(LoadPrivacyIssues(rows), '\n') == IssueLines(rows)
  {
    var lines := IssueLines(rows);
    if rows != [] {
      forall l | l in lines
        ensures '\n' !in l
      {
        var i :| 0 <= i < |lines| && lines[i] == l;
      }
      SplitJoin(lines, '\n');
    }
  }

  /** `[item.strip() for item in response.text.split(',')]`. */
  function ResponseList(text: string): (pieces: seq<string>)
    ensures |pieces| == |SplitOn(text, ',')| >= 1
    ensures forall k :: 0 <= k < |pieces| ==> IsStripped(pieces[k])
  {
    var parts := SplitOn(text, ',');
    seq(|parts|, k requires 0 <= k < |parts| => Strip(parts[k]))
  }

  /** A comma-separated answer gives back each of its pieces, stripped, in order. */
  lemma ResponseListJoin(parts: seq<string>)
    requires |parts| >= 1
    requires forall p :: p in parts ==> ',' !in p
    ensures var pieces := ResponseList(JoinWith(parts, ','));
      && |pieces| == |parts|
      && forall k :: 0 <= k < |parts| ==> pieces[k] == Strip(parts[k])
  {
    SplitJoin(parts, ',');
  }

  /** `dict(zip(privacy_issue.str.lower(), parent_issue))`. */
  function MappingDict(rows: seq<IssueRow>): map<string, string>
  {
    DictFromPairs(seq(|rows|, i requires 0 <= i < |rows| => (Lower(rows[i].privacyIssue), rows[i].parentIssue)))
  }

  /** The lookup table holds every lower-cased issue text, maps it to the parent of the
      LAST row with that text, and maps nothing to a parent no row has. */
  lemma MappingDictSpec(rows: seq<IssueRow>, i: nat)
    requires i < |rows|
    requires forall j :: i < j < |rows| ==> Lower(rows[j].privacyIssue) != Lower(rows[i].privacyIssue)
    ensures Lower(rows[i].privacyIssue) in MappingDict(rows)
    ensures MappingDict(rows)[Lower(rows[i].privacyIssue)] == rows[i].parentIssue
  {
    var pairs := seq(|rows|, i requires 0 <= i < |rows| => (Lower(rows[i].privacyIssue), rows[i].parentIssue));
    DictFromPairsLastWins(pairs, i);
  }

  /** Every parent the table returns is the parent of a row with that issue text. */
  lemma MappingDictFrom(rows: seq<IssueRow>, key: string)
    requires key in MappingDict(rows)
    ensures exists i :: 0 <= i < |rows| && Lower(rows[i].privacyIssue) == key
                        && rows[i].parentIssue == MappingDict(rows)[key]
  {
    var pairs := seq(|rows|, i requires 0 <= i < |rows| => (Lower(rows[i].privacyIssue), rows[i].parentIssue));
    DictFromPairsFrom(pairs, key);
    var i :| 0 <= i < |pairs| && pairs[i] == (key, MappingDict(rows)[key]);
    assert Lower(rows[i].privacyIssue) == key;
  }

  /** The parent a piece is labelled with: the table's, or "Unknown". */
  function ParentOf(mappingDict: map<string, string>, issue: string): string
  {
    Get(mappingDict, Lower(issue), "Unknown")
  }

  /** The loop at the end of `process_pdf_privacy_issues`: one labelled string per piece,
      in order. */
  method FormatResponseList(responseList: seq<string>, mappingDict: map<string, string>)
    returns (formatted: seq<string>)
    ensures |formatted| == |responseList|
    ensures forall k :: 0 <= k < |responseList| ==>
      formatted[k] == Labelled(ParentOf(mappingDict, responseList[k]), responseList[k])
  {
    formatted := [];
    for k := 0 to |responseList|
      invariant |formatted| == k
      invariant forall j :: 0 <= j < k ==>
        formatted[j] == Labelled(ParentOf(mappingDict, responseList[j]), responseList[j])
    {
      var issue := responseList[k];
      var issueLower := Lower(issue);
      var parentIssue := Get(mappingDict, issueLower, "Unknown");
      formatted := formatted + [parentIssue + ": " + issue];
    }
  }

  /** Lines 68-79 of `process_pdf_privacy_issues`, given the model's answer and the
      taxonomy rows. */
  method ProcessResponse(responseText: string, rows: seq<IssueRow>) returns (formatted: seq<string>)
    ensures var pieces := ResponseList(responseText);
      && |formatted| == |pieces|
      && forall k :: 0 <= k < |pieces| ==>
           formatted[k] == Labelled(ParentOf(MappingDict(rows), pieces[k]), pieces[k])
  {
    var responseList := ResponseList(responseText);
    var mappingDict := MappingDict(rows);
    formatted := FormatResponseList(responseList, mappingDict);
  }

  // ---------------------------------------------------------------------------
  // Hand-off to the graders
  // ---------------------------------------------------------------------------

  /** Cutting a labelled string at its first `:` and stripping both sides gives back the
      parent and the piece, when the parent has no `:` and neither has whitespace at its
      ends. */
  lemma LabelledRoundTrip(parent: string, issue: string)
    requires ':' !in parent && IsStripped(parent) && IsStripped(issue)
    ensures HasColon(Labelled(parent, issue))
    ensures ParentPart(Labelled(parent, issue)) == parent
    ensures IssuePart(Labelled(parent, issue)) == issue
  {
    assert Labelled(parent, issue) == parent + [':'] + ([' '] + issue);
    ColonCut(parent, [' '] + issue);
    StripStripped(parent);
    StripLeadingSpace(' ', issue);
    StripStripped(issue);
  }

  /** Taxonomy parents that survive the hand-off: no `:` and no whitespace at the ends. */
  predicate CleanParents(rows: seq<IssueRow>)
  {
    forall i :: 0 <= i < |rows| ==> ':' !in rows[i].parentIssue && IsStripped(rows[i].parentIssue)
  }

  /** Every piece of the answer reaches the graders intact: the models grader finds it
      valid exactly when its lower-cased text is a known issue, and the API grader files it
      under the parent the table gives it, which is a taxonomy category, or under
      "Unknown" when the table does not know it. */
  lemma PipelineFiling(rows: seq<IssueRow>, piece: string, known: set<string>)
    requires CleanParents(rows) && IsStripped(piece)
    ensures var s := Labelled(ParentOf(MappingDict(rows), piece), piece);
      && HasColon(s) && IssuePart(s) == piece
      && (IsValidIssue(s, known) <==> Lower(piece) in known)
      && (Lower(piece) in MappingDict(rows) ==>
            ParentPart(s) == MappingDict(rows)[Lower(piece)] && ParentPart(s) in ApiCategories(rows))
      && (Lower(piece) !in MappingDict(rows) ==> ParentPart(s) == "Unknown")
  {
    var parent := ParentOf(MappingDict(rows), piece);
    if Lower(piece) in MappingDict(rows) {
      MappingDictFrom(rows, Lower(piece));
      var i :| 0 <= i < |rows| && Lower(rows[i].privacyIssue) == Lower(piece)
               && rows[i].parentIssue == MappingDict(rows)[Lower(piece)];
      assert parent == rows[i].parentIssue;
    } else {
      assert parent == "Unknown";
    }
    LabelledRoundTrip(parent, piece);
  }
}
