# Agentic sales pipeline — data-handling rules

A Dafny model of the parts of `agentic_sales_pipeline.py` that the program
itself defines, as opposed to wiring up the agent framework:

- the lead-scoring record (`LeadPersonalInfo`, `CompanyInfo`, `LeadScore`,
  `LeadScoringResult`) with its declared range constraints
  (`LeadRecords`, `lead_records.dfy`);
- the bodies of the `SalesPipeline` flow steps `score_leads`,
  `store_leads_score`, `filter_leads` and `send_email`, each as a pure
  function (`SalesPipeline`, `sales_pipeline.dfy`). The flow state is a map
  from key to value; the crews' batch call is a function parameter;
- the format dispatch of `save_outputs_to_file` (`OutputFormat`,
  `output_format.dfy`);
- what `main` does after a completed run: one table row per scoring result,
  numbered email entries, the run summary, and the list of files written
  (`Reporting`, `reporting.dfy`);
- the string helpers this needs, `str.endswith`, `", ".join` and its
  inverse `str.split(", ")` (`Text`, `text.dfy`), and `Option`
  (`Wrappers`, `wrappers.dfy`).

Modelling choices:

- An exception raised while reading a scoring result (`score.pydantic` is
  `None`, so `.personal_info` fails) is the `ScoringOutput` whose `pydantic`
  is `None`; its row carries Python's message for that error. An exception
  raised while reading an email's attributes is the `EmailUnreadable`
  variant carrying the error text. `hasattr(email, 'token_usage')` is an
  `Option`.
- Only the constraints the schema declares are checked: `role_relevance`
  in 0..10 and `score` in 0..100. `market_presence` is described as a 0-10
  score but has no declared bound, so it stays unconstrained.
- When `main` reads the scores back from the flow state it uses an empty
  list as the default, so an absent `"score_crews_results"` key is not an
  error (`ScoresFromState`).
- The step scheduler (which step runs after which, fan-out, joins) belongs
  to the crewai framework, not to this repository; the model holds the step
  bodies only. There is no step registration, cycle check or join logic in
  this program's code, so none is modelled.

## Model

| member | source | states |
|---|---|---|
| LeadRecords.Violations | agentic_sales_pipeline.py:39-60 | schema validation reports no error exactly for records with role relevance in 0..10 and score in 0..100; it reports each broken bound once, with its offending value, in field declaration order (role relevance before score) |
| SalesPipeline.ScoreLeads | agentic_sales_pipeline.py:166-170 | the scoring step returns the crew's batch, stores that same value under `"score_crews_results"`, adds only that key and leaves every other key's value unchanged |
| SalesPipeline.StoreLeadsScore | agentic_sales_pipeline.py:172-175 | storing the scores hands them on unchanged |
| SalesPipeline.SendEmail | agentic_sales_pipeline.py:187-190 | sending the emails hands them on unchanged |
| SalesPipeline.FilterLeads | agentic_sales_pipeline.py:177-179 | the gate never returns more items than it got, and an item is in its output iff it is in the input and its score is strictly above 70 (a score of exactly 70 is dropped) |
| SalesPipeline.FilterLeadsIsOrderedSubsequence | agentic_sales_pipeline.py:179 | the output is the input read at strictly increasing positions, and those positions are exactly the ones holding a qualifying lead: survivors keep their relative order |
| SalesPipeline.FilterLeadsCounts | agentic_sales_pipeline.py:179 | a qualifying lead keeps every one of its occurrences, a non-qualifying one keeps none |
| SalesPipeline.FilterLeadsAppend | agentic_sales_pipeline.py:179 | filtering two batches joined equals joining the two filtered batches |
| SalesPipeline.FilterLeadsIdempotent | agentic_sales_pipeline.py:179 | filtering the gate's own output returns it unchanged |
| SalesPipeline.FilterLeadsKeepsAllIff | agentic_sales_pipeline.py:179 | the output is as long as the input iff every lead qualifies |
| SalesPipeline.FilterLeadsOnValidRecords | agentic_sales_pipeline.py:177-179 | on schema-valid records the gate passes exactly the leads scored 71..100, and what it passes is schema-valid |
| Text.SuffixesExclusive | agentic_sales_pipeline.py:197-203 | no file name ends with two suffixes whose last characters differ, such as `.json`, `.txt` and `.csv` |
| Text.EndsWith | agentic_sales_pipeline.py:197-203 | a name ends with a suffix exactly when it is some prefix followed by that suffix |
| Text.Join | agentic_sales_pipeline.py:252 | the `", "`-join is empty for no criteria, otherwise as long as all criteria plus one separator per gap and starts with the first criterion |
| Text.JoinPlacesParts | agentic_sales_pipeline.py:252 | in the join, every criterion appears in order at its offset (the earlier criteria and one separator each before it), and the separator fills exactly each gap between neighbours |
| Text.SplitJoinRoundTrip | agentic_sales_pipeline.py:252 | splitting on `", "` recovers a non-empty criteria list from its join when no criterion contains `", "` |
| OutputFormat.SelectFormat | agentic_sales_pipeline.py:197-210 | a table is chosen only for a `.csv` name with a non-empty list, and nothing is written exactly when the name ends in none of `.json`, `.txt`, `.csv` |
| OutputFormat.SelectFormatBySuffix | agentic_sales_pipeline.py:197-210 | each suffix alone decides the format whatever the order of the checks: `.json` gives JSON, `.txt` plain text, `.csv` a table for a non-empty list and plain text otherwise |
| OutputFormat.SelectFormatForAppendedSuffix | agentic_sales_pipeline.py:197-210 | a name built as stem plus `.json`, `.txt` or `.csv` gets that suffix's format |
| Reporting.FlattenScore | agentic_sales_pipeline.py:238-257 | a scoring output gives an error row, with the attribute error's message, exactly when it holds no structured record; otherwise the row's criteria cell is the `", "`-join of the criteria and every other column holds its record field unchanged |
| Reporting.FlattenScoreRoundTrip | agentic_sales_pipeline.py:240-254 | reading a row back gives the original record, criteria included, whenever the criteria are non-empty strings without the separator; an error row reads back as no record |
| Reporting.FlattenScoreMergesCriteria | agentic_sales_pipeline.py:252 | two records that differ only in criteria `["a, b"]` versus `["a", "b"]` give identical rows |
| Reporting.FlattenScores | agentic_sales_pipeline.py:236-257 | the scoring table has one row per score, in input order, each the row of its own score, and a failing item yields an error row without stopping the loop |
| Reporting.NumberEmails | agentic_sales_pipeline.py:262-273 | one entry per email, entry i carrying id i + 1, the raw content and the token usage (`"N/A"` when absent), or an error entry with the same id when the email cannot be read |
| Reporting.NumberedIdsAreOneToN | agentic_sales_pipeline.py:264-273 | numbered entries carry exactly the ids 1..n, each exactly once |
| Reporting.MakeSummary | agentic_sales_pipeline.py:278-284 | the summary counts equal the number of scores and of emails (zero for empty batches), lists the flow state's keys and has status `"completed"` |
| Reporting.ScoresFromState | agentic_sales_pipeline.py:226 | reading the scores gives the value stored under `"score_crews_results"` when the key is present, and no scores when it is absent |
| Reporting.ScoresReadBackAfterScoring | agentic_sales_pipeline.py:226 | after the scoring step, reading the scores from the state gives exactly the batch the step returned |
| Reporting.IsNonEmptyList | agentic_sales_pipeline.py:205 | the scoring table and the emails document count as non-empty lists exactly when they have an entry; the summary, a mapping, never does |
| Reporting.PlanOutputs | agentic_sales_pipeline.py:233-286 | the files are, in order: the scoring table named `lead_scoring_results_<timestamp>.csv`, present iff there are scores and holding one row per score in order; the emails document named `generated_emails_<timestamp>.json`, present iff there are emails and holding their numbered entries; and always, last, the summary `pipeline_summary_<timestamp>.json`; every file gets a format, the scoring file a table and the emails document JSON |

## Left out

- The flow scheduler (`Flow`, `@start`, `@listen`, `kickoff`): it is crewai's code and decides only which step body runs when.
- `fetch_leads`: a hard-coded one-lead sample standing in for a database read.
- `write_email`: its body is `to_dict` on each lead followed by the email crew's batch call, both framework calls.
- Agent, task and crew construction and `kickoff_for_each`: LLM and web-tool calls; the scoring batch call is a function parameter of `ScoreLeads`.
- Loading the YAML configuration and setting environment variables: file I/O and process state.
- The actual writing in `save_outputs_to_file` (`os.makedirs`, `open`, `json.dump`, pandas `to_csv`) and every `print`: I/O.
- `revenue`: a float that is only carried along; it is a `real` in an `Option`, never computed on, and NaN and infinities are not represented.
- The timestamps from `datetime.now()`: nondeterministic; `PlanOutputs` takes the timestamp text as a parameter.
- The `except` branch of `main`, which writes an error summary and may refer to an unbound `timestamp`: error plumbing outside the completed run.
- SalesPipeline.FilterLeads: works on scoring records directly; the source indexes crew outputs with `score['lead_score']`, whose lookup is the framework's and may raise for an output without a record.
- Reporting.MakeSummary: keeps the flow state's keys as a set, so the insertion order of `list(flow.state.keys())` is not modelled.
