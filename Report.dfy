/** What `streamlit_app.py` shows and exports once an analysis is complete:
    the per-specialist depth summary of `create_analysis_summary` and the
    plain-text report of the "Export as TXT" button. */
module Report {
  import opened PyValues
  import opened PyStrings
  import opened PyDict

  /** The two values of the summary's "Status" column. */
  const CompleteDepth: string := "\U{2705} Complete"
  const LimitedDepth: string := "\U{26A0}\U{FE0F} Limited"

  /** The most words an analysis may have and still be "Limited". */
  const LimitedWords: nat := 10

  /** One row of `analysis_data`: "Specialist", "Analysis Depth (Words)", "Status". */
  datatype Row = Row(specialist: string, depth: nat, status: string)

  /** `len(str(response).split()) if response else 0`. */
  function WordCount(response: Option<string>): (n: nat)
    ensures n == 0 <==> response.None? || forall i :: 0 <= i < |response.value| ==> IsSpace(response.value[i])
    ensures response.Some? ==> n <= |response.value|
  {
    if Truthy(response) then
      SplitEmptyIffBlank(Show(response));
      |Split(Show(response))|
    else 0
  }

  /** `"✅ Complete" if word_count > 10 else "⚠️ Limited"`. */
  function DepthStatus(wordCount: nat): (status: string)
    ensures status == CompleteDepth <==> wordCount > LimitedWords
    ensures status == LimitedDepth <==> wordCount <= LimitedWords
  {
    assert CompleteDepth[0] != LimitedDepth[0];
    if wordCount > LimitedWords then CompleteDepth else LimitedDepth
  }

  /** The row one `(agent_name, response)` entry contributes. */
  function SummaryRow(entry: (string, Option<string>)): Row {
    var n := WordCount(entry.1);
    Row(entry.0, n, DepthStatus(n))
  }

  /** The loop of `create_analysis_summary` that fills `analysis_data`. */
  method CreateAnalysisSummary(responses: Dict<Option<string>>) returns (analysisData: seq<Row>)
    ensures |analysisData| == |responses|
    ensures forall i :: 0 <= i < |responses| ==>
      && analysisData[i].specialist == responses[i].0
      && analysisData[i].depth == WordCount(responses[i].1)
      && (analysisData[i].status == CompleteDepth <==> analysisData[i].depth > LimitedWords)
      && (analysisData[i].status == LimitedDepth <==> analysisData[i].depth <= LimitedWords)
  {
    analysisData := [];
    var i := 0;
    while i < |responses|
      invariant 0 <= i <= |responses|
      invariant |analysisData| == i
      invariant forall j :: 0 <= j < i ==> analysisData[j] == SummaryRow(responses[j])
    {
      var (agentName, response) := responses[i];
      var wordCount := WordCount(response);
      var row := Row(agentName, wordCount, DepthStatus(wordCount));
      ghost var done := analysisData;
      analysisData := analysisData + [row];
      assert forall j :: 0 <= j < i + 1 ==> analysisData[j] == SummaryRow(responses[j]) by {
        forall j | 0 <= j < i + 1 ensures analysisData[j] == SummaryRow(responses[j]) {
          if j < i {
            assert analysisData[j] == done[j];
          } else {
            assert row == SummaryRow(responses[i]);
          }
        }
      }
      i := i + 1;
    }
    forall j | 0 <= j < |responses|
      ensures analysisData[j].specialist == responses[j].0
      ensures analysisData[j].depth == WordCount(responses[j].1)
      ensures analysisData[j].status == CompleteDepth <==> analysisData[j].depth > LimitedWords
      ensures analysisData[j].status == LimitedDepth <==> analysisData[j].depth <= LimitedWords
    {
      SummaryRowStates(responses[j]);
    }
  }

  /** A row names its specialist, counts the response's words and labels the depth. */
  lemma SummaryRowStates(entry: (string, Option<string>))
    ensures SummaryRow(entry).specialist == entry.0
    ensures SummaryRow(entry).depth == WordCount(entry.1)
    ensures SummaryRow(entry).status == CompleteDepth <==> SummaryRow(entry).depth > LimitedWords
    ensures SummaryRow(entry).status == LimitedDepth <==> SummaryRow(entry).depth <= LimitedWords
  {
  }

  /** A response made of the words `ws` joined by single spaces has depth `|ws|`. */
  lemma {:induction false} DepthOfJoinedWords(ws: seq<string>)
    requires IsWordList(ws)
    ensures WordCount(Some(Join(ws))) == |ws|
  {
    SplitJoin(ws);
    if ws == [] {
      assert Join(ws) == "";
    } else {
      assert |Join(ws)| > 0 by { JoinStartsWithFirst(ws); }
    }
  }

  lemma {:induction false} JoinStartsWithFirst(ws: seq<string>)
    requires |ws| > 0
    ensures Join(ws)[..|ws[0]|] == ws[0]
  {
    if |ws| > 1 {
      assert Join(ws) == ws[0] + " " + Join(ws[1..]);
    }
  }

  /** A specialist whose model call failed (response `None`) and one that
      answered with an empty or blank text are both shown as "Limited" with
      depth 0; so is every answer of at most ten words. */
  lemma NoDepthIsLimited(entry: (string, Option<string>))
    requires entry.1.None? || WordCount(entry.1) <= LimitedWords
    ensures SummaryRow(entry).status == LimitedDepth
    ensures entry.1.None? ==> SummaryRow(entry).depth == 0
  {
  }

  // ---------------------------------------------------------------------
  // Export as TXT

  /** The fixed lines of the export's header. */
  const ReportTitle: string := "\n# Medical AI Diagnosis Report\nGenerated: "
  const DiagnosisHeading: string := "\n\n## Final Diagnosis\n"
  const ReportsHeading: string := "\n\n## Individual Specialist Reports\n"

  /** The f-string the export starts from; `timestamp` is the formatted
      analysis time. */
  function ExportHeader(timestamp: string, finalDiagnosis: Option<string>): string {
    ReportTitle + timestamp + DiagnosisHeading + Show(finalDiagnosis) + ReportsHeading
  }

  /** `f"\n### {agent_name}\n{response}\n"`. */
  function Section(agentName: string, response: Option<string>): string {
    "\n### " + agentName + "\n" + Show(response) + "\n"
  }

  /** A section opens with the heading `### name` on a line of its own. */
  lemma SectionHeading(agentName: string, response: Option<string>)
    ensures |Section(agentName, response)| == 5 + |agentName| + 1 + |Show(response)| + 1
    ensures Section(agentName, response)[..5 + |agentName|] == "\n### " + agentName
  {
    var s := Section(agentName, response);
    assert s == ("\n### " + agentName) + ("\n" + Show(response) + "\n");
  }

  /** After its heading line a section writes the response out verbatim. */
  lemma SectionShowsResponse(agentName: string, response: Option<string>)
    ensures |Section(agentName, response)| == 5 + |agentName| + 1 + |Show(response)| + 1
    ensures Section(agentName, response)[5 + |agentName| + 1..][..|Show(response)|] == Show(response)
  {
    var s := Section(agentName, response);
    assert s == ("\n### " + agentName + "\n") + (Show(response) + "\n");
  }

  /** The sections the export appends, one per entry, in the dictionary's order. */
  function Sections(agentResponses: Dict<Option<string>>): (ss: seq<string>)
    ensures |ss| == |agentResponses|
  {
    seq(|agentResponses|, i requires 0 <= i < |agentResponses| => Section(agentResponses[i].0, agentResponses[i].1))
  }

  /** The whole exported text, after a given header. */
  function ExportText(header: string, agentResponses: Dict<Option<string>>): string {
    header + Concat(Sections(agentResponses))
  }

  /** The "Export as TXT" button: the header, then one section per
      specialist. */
  method ExportTxt(timestamp: string, finalDiagnosis: Option<string>, agentResponses: Dict<Option<string>>)
    returns (exportContent: string)
    ensures exportContent == ExportText(ExportHeader(timestamp, finalDiagnosis), agentResponses)
  {
    exportContent := AppendSections(ExportHeader(timestamp, finalDiagnosis), agentResponses);
  }

  /** The loop of the export: `export_content += f"\n### {agent_name}\n{response}\n"`
      for every entry, in the dictionary's order. */
  method AppendSections(header: string, agentResponses: Dict<Option<string>>) returns (exportContent: string)
    ensures exportContent == ExportText(header, agentResponses)
  {
    exportContent := header;
    ghost var ss := Sections(agentResponses);
    var i := 0;
    while i < |agentResponses|
      invariant 0 <= i <= |agentResponses|
      invariant exportContent == header + Concat(ss[..i])
    {
      var (agentName, response) := agentResponses[i];
      var section := Section(agentName, response);
      assert ss[..i + 1] == ss[..i] + [section];
      ConcatAppend(ss[..i], section);
      exportContent := exportContent + section;
      i := i + 1;
    }
    assert ss[..i] == ss;
  }

  /** Where the section of the `i`-th specialist starts in the export. */
  function SectionOffset(header: string, agentResponses: Dict<Option<string>>, i: nat): nat
    requires i <= |agentResponses|
  {
    |header| + |Concat(Sections(agentResponses)[..i])|
  }

  /** The header names the analysis time and then carries the final
      diagnosis, written out verbatim. */
  lemma HeaderShowsDiagnosis(timestamp: string, finalDiagnosis: Option<string>)
    ensures var header := ExportHeader(timestamp, finalDiagnosis);
      var at := |ReportTitle| + |timestamp| + |DiagnosisHeading|;
      && |header| == at + |Show(finalDiagnosis)| + |ReportsHeading|
      && header[|ReportTitle|..][..|timestamp|] == timestamp
      && header[at..][..|Show(finalDiagnosis)|] == Show(finalDiagnosis)
  {
    FieldsOfFive(ReportTitle, timestamp, DiagnosisHeading, Show(finalDiagnosis), ReportsHeading);
  }

  /** The second and fourth of five joined strings sit at their offsets. */
  lemma FieldsOfFive(a: string, b: string, c: string, d: string, e: string)
    ensures |a + b + c + d + e| == |a| + |b| + |c| + |d| + |e|
    ensures (a + b + c + d + e)[|a|..][..|b|] == b
    ensures (a + b + c + d + e)[|a| + |b| + |c|..][..|d|] == d
  {
    assert a + b + c + d + e == a + (b + (c + d + e));
    SliceOfMiddle(a, b, c + d + e);
    assert a + b + c + d + e == (a + b + c) + (d + e);
    SliceOfMiddle(a + b + c, d, e);
  }

  /** Every specialist's section, with its name and its response written out
      verbatim, sits in the export at its offset. */
  lemma ExportShowsEachReport(header: string, agentResponses: Dict<Option<string>>, i: nat)
    requires i < |agentResponses|
    ensures var text := ExportText(header, agentResponses);
      var at := SectionOffset(header, agentResponses, i);
      var sec := Section(agentResponses[i].0, agentResponses[i].1);
      && text[..|header|] == header
      && at + |sec| <= |text|
      && text[at..][..|sec|] == sec
      && text[at + 5 + |agentResponses[i].0| + 1..][..|Show(agentResponses[i].1)|] == Show(agentResponses[i].1)
  {
    var ss := Sections(agentResponses);
    ConcatSlot(header, ss, i);
    SectionShowsResponse(agentResponses[i].0, agentResponses[i].1);
    SliceOfSlice(header + Concat(ss), |header| + |Concat(ss[..i])|, |ss[i]|,
      5 + |agentResponses[i].0| + 1, |Show(agentResponses[i].1)|);
  }

  /** Text written after `prefix` by `"".join(xs)` holds `xs[i]` right after
      the first `i` pieces. */
  lemma {:induction false} ConcatSlot(prefix: string, xs: seq<string>, i: nat)
    requires i < |xs|
    ensures |prefix| + |Concat(xs[..i])| + |xs[i]| <= |prefix + Concat(xs)|
    ensures (prefix + Concat(xs))[|prefix| + |Concat(xs[..i])|..][..|xs[i]|] == xs[i]
  {
    ConcatAt(xs, i);
    var before := prefix + Concat(xs[..i]);
    assert prefix + Concat(xs) == before + (xs[i] + Concat(xs[i + 1..]));
    SliceOfMiddle(before, xs[i], Concat(xs[i + 1..]));
  }

  lemma SliceOfMiddle(a: string, b: string, c: string)
    ensures (a + (b + c))[|a|..][..|b|] == b
  {
  }

  lemma SliceOfSlice(s: string, at: nat, len: nat, from: nat, n: nat)
    requires at + len <= |s| && from + n <= len
    ensures s[at + from..][..n] == s[at..][..len][from..][..n]
  {
  }

  /** Sections follow the dictionary's order: the `i`-th ends before the
      `j`-th starts. */
  lemma {:induction false} ExportKeepsOrder(header: string, agentResponses: Dict<Option<string>>, i: nat, j: nat)
    requires i < j <= |agentResponses|
    ensures SectionOffset(header, agentResponses, i) + |Sections(agentResponses)[i]|
      <= SectionOffset(header, agentResponses, j)
  {
    var ss := Sections(agentResponses);
    ConcatAt(ss[..j], i);
    assert ss[..j][..i] == ss[..i];
    assert ss[..j][i] == ss[i];
  }
}
