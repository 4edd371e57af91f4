/**
 What the program's entry point does with a finished run: flatten each
 scoring result into a table row, number the generated emails, summarise the
 run, and decide which files are written in which format.

 The scoring crew's output for one lead carries the structured record when
 the crew produced one; reading the record's fields from a missing one raises,
 and that error is caught per item and turned into an error row. Reading an
 email's attributes can likewise raise; that case is `EmailUnreadable`,
 carrying the error's text.
 */
module Reporting {
  import opened Wrappers
  import opened LeadRecords
  import opened Text
  import opened SalesPipeline
  import opened OutputFormat

  /** One scoring crew output; `pydantic` is absent when no structured record came back. */
  datatype ScoringOutput = ScoringOutput(pydantic: Option<LeadScoringResult>)

  /** The message of the error raised when a missing record's fields are read. */
  const MissingRecordError: string := "'NoneType' object has no attribute 'personal_info'"

  /** One row of the lead-scoring table. */
  datatype ScoreRow =
    | ScoreRow(
        name: string,
        jobTitle: string,
        roleRelevance: int,
        professionalBackground: Option<string>,
        companyName: string,
        industry: string,
        companySize: int,
        revenue: Option<Revenue>,
        marketPresence: int,
        leadScore: int,
        scoringCriteria: string,
        validationNotes: Option<string>)
    | ErrorRow(error: string)

  /** The row for one scoring output. */
  function FlattenScore(o: ScoringOutput): (row: ScoreRow)
    ensures row.ErrorRow? <==> o.pydantic.None?
    ensures o.pydantic.None? ==> row.error == MissingRecordError
    ensures o.pydantic.Some? ==>
              var r := o.pydantic.value;
              && row.scoringCriteria == Join(CriteriaSeparator, r.leadScore.scoringCriteria)
              && RowToResult(row)
                 == Some(r.(leadScore := r.leadScore.(scoringCriteria := CriteriaFromCell(row.scoringCriteria))))
  {
    match o.pydantic
    case None => ErrorRow(MissingRecordError)
    case Some(r) =>
      ScoreRow(
        r.personalInfo.name,
        r.personalInfo.jobTitle,
        r.personalInfo.roleRelevance,
        r.personalInfo.professionalBackground,
        r.companyInfo.companyName,
        r.companyInfo.industry,
        r.companyInfo.companySize,
        r.companyInfo.revenue,
        r.companyInfo.marketPresence,
        r.leadScore.score,
        Join(CriteriaSeparator, r.leadScore.scoringCriteria),
        r.leadScore.validationNotes)
  }

  /** The criteria list a table cell stands for: an empty cell for no criteria,
      otherwise the pieces between separators. */
  function CriteriaFromCell(cell: string): seq<string>
  {
    if cell == "" then [] else SplitCriteria(cell)
  }

  /** Reads a row back into the record it was flattened from. */
  function RowToResult(row: ScoreRow): Option<LeadScoringResult>
  {
    match row
    case ErrorRow(_) => None
    case ScoreRow(name, jobTitle, roleRelevance, background, companyName, industry,
                  companySize, revenue, marketPresence, score, criteria, notes) =>
      Some(LeadScoringResult(
        LeadPersonalInfo(name, jobTitle, roleRelevance, background),
        CompanyInfo(companyName, industry, companySize, revenue, marketPresence),
        LeadScore(score, CriteriaFromCell(criteria), notes)))
  }

  /** Criteria that survive the joined cell: each non-empty and free of the separator. */
  predicate RecoverableCriteria(criteria: seq<string>) {
    forall i :: 0 <= i < |criteria| ==> criteria[i] != "" && !ContainsSeparator(criteria[i])
  }

  predicate Recoverable(o: ScoringOutput) {
    o.pydantic.Some? ==> RecoverableCriteria(o.pydantic.value.leadScore.scoringCriteria)
  }

  /** A row copies every field unchanged and joins the criteria losslessly when
      they are recoverable: reading the row back gives the original record, and
      an error row reads back as no record. */
  lemma FlattenScoreRoundTrip(o: ScoringOutput)
    requires Recoverable(o)
    ensures RowToResult(FlattenScore(o)) == o.pydantic
  {
    if o.pydantic.Some? {
      var criteria := o.pydantic.value.leadScore.scoringCriteria;
      if |criteria| > 0 {
        SplitJoinRoundTrip(criteria);
        assert Join(CriteriaSeparator, criteria) != "" by {
          assert |Join(CriteriaSeparator, criteria)| >= |criteria[0]| > 0;
        }
      }
    }
  }

  /** The two lead-score criteria lists ["a, b"] and ["a", "b"] give the same row. */
  lemma FlattenScoreMergesCriteria(r: LeadScoringResult)
    ensures var one := r.(leadScore := r.leadScore.(scoringCriteria := ["a, b"]));
            var two := r.(leadScore := r.leadScore.(scoringCriteria := ["a", "b"]));
            one != two && FlattenScore(ScoringOutput(Some(one))) == FlattenScore(ScoringOutput(Some(two)))
  {
    JoinIsLossy();
    var one := r.(leadScore := r.leadScore.(scoringCriteria := ["a, b"]));
    var two := r.(leadScore := r.leadScore.(scoringCriteria := ["a", "b"]));
    assert one.leadScore.scoringCriteria != two.leadScore.scoringCriteria;
  }

  /** `rows` holds one row per output, in input order, each that output's row. */
  predicate FlattenedFrom(rows: seq<ScoreRow>, scores: seq<ScoringOutput>) {
    |rows| == |scores| && forall i :: 0 <= i < |scores| ==> rows[i] == FlattenScore(scores[i])
  }

  /** The scoring table: one row per output, in input order; a failing output
      gives an error row and the loop carries on. */
  method FlattenScores(scores: seq<ScoringOutput>) returns (rows: seq<ScoreRow>)
    ensures FlattenedFrom(rows, scores)
    ensures forall i :: 0 <= i < |scores| && Recoverable(scores[i]) ==>
              RowToResult(rows[i]) == scores[i].pydantic
  {
    rows := [];
    for i := 0 to |scores|
      invariant |rows| == i
      invariant forall j :: 0 <= j < i ==> rows[j] == FlattenScore(scores[j])
    {
      rows := rows + [FlattenScore(scores[i])];
    }
    forall i | 0 <= i < |scores| && Recoverable(scores[i])
      ensures RowToResult(rows[i]) == scores[i].pydantic
    {
      FlattenScoreRoundTrip(scores[i]);
    }
  }

  /** One email crew output, or the error raised while reading its attributes. */
  datatype EmailOutput =
    | EmailOutput(raw: string, tokenUsage: Option<string>)
    | EmailUnreadable(error: string)

  /** Token usage text when the output has none. */
  const NoTokenUsage: string := "N/A"

  /** One entry of the emails document. */
  datatype EmailRecord =
    | EmailRecord(emailId: int, content: string, tokenUsage: string)
    | EmailError(emailId: int, error: string)

  /** Email ids run 1, 2, ... in list order. */
  predicate NumberedFromOne(records: seq<EmailRecord>) {
    forall i :: 0 <= i < |records| ==> records[i].emailId == i + 1
  }

  /** `record` is the entry with id `id` for `email`: its raw content and token
      usage, or the error raised while reading it. */
  predicate EntryFor(record: EmailRecord, id: int, email: EmailOutput) {
    match email
    case EmailOutput(raw, usage) => record == EmailRecord(id, raw, usage.GetOr(NoTokenUsage))
    case EmailUnreadable(e) => record == EmailError(id, e)
  }

  /** `records` holds one entry per email, in order, the i-th with id i + 1. */
  predicate EmailsNumberedFrom(records: seq<EmailRecord>, emails: seq<EmailOutput>) {
    |records| == |emails| && forall i :: 0 <= i < |emails| ==> EntryFor(records[i], i + 1, emails[i])
  }

  /** The emails document: one entry per email, numbered from 1 in order, an
      error entry for an email that cannot be read. */
  method NumberEmails(emails: seq<EmailOutput>) returns (records: seq<EmailRecord>)
    ensures EmailsNumberedFrom(records, emails)
    ensures NumberedFromOne(records)
  {
    records := [];
    for i := 0 to |emails|
      invariant |records| == i
      invariant NumberedFromOne(records)
      invariant forall j :: 0 <= j < i ==> EntryFor(records[j], j + 1, emails[j])
    {
      var entry := match emails[i]
        case EmailOutput(raw, usage) => EmailRecord(i + 1, raw, usage.GetOr(NoTokenUsage))
        case EmailUnreadable(e) => EmailError(i + 1, e);
      records := records + [entry];
    }
  }

  /** The ids the records carry. */
  function IdsOf(records: seq<EmailRecord>): set<int>
  {
    set i | 0 <= i < |records| :: records[i].emailId
  }

  /** The ids 1..n. */
  function OneTo(n: nat): set<int>
  {
    if n == 0 then {} else OneTo(n - 1) + {n}
  }

  lemma {:induction false} OneToBounds(n: nat)
    ensures forall k :: k in OneTo(n) ==> 1 <= k <= n
    ensures |OneTo(n)| == n
  {
    if n > 0 {
      OneToBounds(n - 1);
      assert n !in OneTo(n - 1);
    }
  }

  /** Dropping the last of n numbered entries drops exactly the id n. */
  lemma IdsOfNumberedPrefix(records: seq<EmailRecord>)
    requires |records| > 0 && NumberedFromOne(records)
    ensures IdsOf(records) == IdsOf(records[..|records| - 1]) + {|records|}
  {
    var n := |records|;
    var front := records[..n - 1];
    forall k | k in IdsOf(records)
      ensures k in IdsOf(front) + {n}
    {
      var i :| 0 <= i < n && records[i].emailId == k;
      if i < n - 1 {
        assert front[i] == records[i];
      }
    }
    forall k | k in IdsOf(front)
      ensures k in IdsOf(records)
    {
      var i :| 0 <= i < n - 1 && front[i].emailId == k;
      assert records[i] == front[i];
    }
    assert records[n - 1].emailId == n;
  }

  /** Numbering from one gives each id in 1..n exactly once. */
  lemma {:induction false} NumberedIdsAreOneToN(records: seq<EmailRecord>)
    requires NumberedFromOne(records)
    ensures IdsOf(records) == OneTo(|records|)
    ensures |IdsOf(records)| == |records|
  {
    var n := |records|;
    if n > 0 {
      var front := records[..n - 1];
      assert NumberedFromOne(front) by {
        forall i | 0 <= i < |front| ensures front[i].emailId == i + 1 {
          assert front[i] == records[i];
        }
      }
      NumberedIdsAreOneToN(front);
      IdsOfNumberedPrefix(records);
    }
    OneToBounds(n);
  }

  /** Status recorded for a run that reached the end of the entry point. */
  const CompletedStatus: string := "completed"

  datatype Summary = Summary(
    timestamp: string,
    totalLeadsProcessed: nat,
    totalEmailsGenerated: nat,
    flowStateKeys: set<string>,
    status: string)

  /** The run summary; an empty batch counts as zero either way. */
  function MakeSummary<S, E>(timestamp: string, scores: seq<S>, emails: seq<E>,
                             stateKeys: set<string>): (s: Summary)
    ensures s.totalLeadsProcessed == |scores|
    ensures s.totalEmailsGenerated == |emails|
    ensures s.timestamp == timestamp && s.flowStateKeys == stateKeys
    ensures s.status == CompletedStatus
  {
    Summary(timestamp,
            if |scores| > 0 then |scores| else 0,
            if |emails| > 0 then |emails| else 0,
            stateKeys,
            CompletedStatus)
  }

  /** The scores the entry point reads back from the flow state, or none. */
  function ScoresFromState<T>(state: map<string, seq<T>>): (scores: seq<T>)
    ensures ScoreResultsKey in state ==> scores == state[ScoreResultsKey]
    ensures ScoreResultsKey !in state ==> scores == []
  {
    if ScoreResultsKey in state then state[ScoreResultsKey] else []
  }

  /** The entry point reads back exactly the batch the scoring step returned. */
  lemma ScoresReadBackAfterScoring<L, T>(state: map<string, seq<T>>, leads: L,
                                         kickoffForEach: L -> seq<T>)
    ensures var step := ScoreLeads(state, leads, kickoffForEach);
            ScoresFromState(step.state) == step.output == kickoffForEach(leads)
  {
  }

  datatype Payload =
    | ScoreTable(rows: seq<ScoreRow>)
    | EmailDocument(records: seq<EmailRecord>)
    | SummaryDocument(summary: Summary)

  /** `isinstance(data, list) and len(data) > 0`: the table and the emails
      document are lists, the summary is a mapping. */
  function IsNonEmptyList(p: Payload): (r: bool)
    ensures p.ScoreTable? ==> (r <==> |p.rows| > 0)
    ensures p.EmailDocument? ==> (r <==> |p.records| > 0)
    ensures p.SummaryDocument? ==> !r
  {
    match p
    case ScoreTable(rows) => |rows| > 0
    case EmailDocument(records) => |records| > 0
    case SummaryDocument(_) => false
  }

  datatype OutputFile = OutputFile(filename: string, payload: Payload)

  function FormatOf(f: OutputFile): Option<Format> {
    SelectFormat(f.filename, IsNonEmptyList(f.payload))
  }

  function ScoreTableName(timestamp: string): string {
    "lead_scoring_results_" + timestamp + CsvSuffix
  }

  function EmailDocumentName(timestamp: string): string {
    "generated_emails_" + timestamp + JsonSuffix
  }

  function SummaryName(timestamp: string): string {
    "pipeline_summary_" + timestamp + JsonSuffix
  }

  lemma OutputNameFormats(timestamp: string, nonEmptyList: bool)
    ensures SelectFormat(ScoreTableName(timestamp), nonEmptyList)
            == if nonEmptyList then Some(Table) else Some(PlainText)
    ensures SelectFormat(EmailDocumentName(timestamp), nonEmptyList) == Some(Json)
    ensures SelectFormat(SummaryName(timestamp), nonEmptyList) == Some(Json)
  {
    SelectFormatForAppendedSuffix("lead_scoring_results_" + timestamp, nonEmptyList);
    SelectFormatForAppendedSuffix("generated_emails_" + timestamp, nonEmptyList);
    SelectFormatForAppendedSuffix("pipeline_summary_" + timestamp, nonEmptyList);
  }

  /** The files the entry point writes after a completed run, in order: the
      scoring table when there are scores, the emails document when there
      are emails, and always the run summary. Every planned file has a format,
      so none of them is silently skipped. */
  method PlanOutputs(state: map<string, seq<ScoringOutput>>, emails: seq<EmailOutput>,
                     timestamp: string)
    returns (files: seq<OutputFile>)
    ensures var scores := ScoresFromState(state);
            |files| == (if |scores| > 0 then 1 else 0) + (if |emails| > 0 then 1 else 0) + 1
    ensures files[|files| - 1]
            == OutputFile(SummaryName(timestamp),
                          SummaryDocument(MakeSummary(timestamp, ScoresFromState(state), emails, state.Keys)))
    ensures |ScoresFromState(state)| > 0 ==>
              && files[0].filename == ScoreTableName(timestamp)
              && files[0].payload.ScoreTable?
              && FlattenedFrom(files[0].payload.rows, ScoresFromState(state))
    ensures |emails| > 0 ==>
              && files[|files| - 2].filename == EmailDocumentName(timestamp)
              && files[|files| - 2].payload.EmailDocument?
              && EmailsNumberedFrom(files[|files| - 2].payload.records, emails)
    ensures forall i :: 0 <= i < |files| && files[i].payload.ScoreTable? ==>
              i == 0 && |ScoresFromState(state)| > 0
    ensures forall i :: 0 <= i < |files| && files[i].payload.EmailDocument? ==>
              i == |files| - 2 && |emails| > 0
    ensures forall i :: 0 <= i < |files| ==> FormatOf(files[i]).Some?
    ensures |ScoresFromState(state)| > 0 ==> FormatOf(files[0]) == Some(Table)
    ensures |emails| > 0 ==> FormatOf(files[|files| - 2]) == Some(Json)
  {
    OutputNameFormats(timestamp, true);
    OutputNameFormats(timestamp, false);
    var scores := ScoresFromState(state);
    var scoreFiles: seq<OutputFile> := [];
    if |scores| > 0 {
      var rows := FlattenScores(scores);
      var table := OutputFile(ScoreTableName(timestamp), ScoreTable(rows));
      assert FormatOf(table) == Some(Table);
      scoreFiles := [table];
    }
    var emailFiles: seq<OutputFile> := [];
    if |emails| > 0 {
      var records := NumberEmails(emails);
      var document := OutputFile(EmailDocumentName(timestamp), EmailDocument(records));
      assert FormatOf(document) == Some(Json);
      emailFiles := [document];
    }
    var summary := OutputFile(SummaryName(timestamp),
                              SummaryDocument(MakeSummary(timestamp, scores, emails, state.Keys)));
    assert FormatOf(summary) == Some(Json);
    files := scoreFiles + emailFiles + [summary];
    forall i | 0 <= i < |files|
      ensures files[i] in scoreFiles || files[i] in emailFiles || files[i] == summary
    {
      if i < |scoreFiles| {
        assert files[i] == scoreFiles[i];
      } else if i < |scoreFiles| + |emailFiles| {
        assert files[i] == emailFiles[i - |scoreFiles|];
      }
    }
  }
}
