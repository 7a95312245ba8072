# Record reconciliation of two coded snapshots

This project is a Dafny model of a change report built from two snapshots of
a coded dataset: "Q3" (before) and "Q4" (after). Each snapshot is a list of
records, each with a `Code` and a text column. The report has one row for
every before record, marked in one of three ways:

- "Removed in Q4" when its code is missing from the after snapshot;
- "No Change" when the two stripped texts are equal;
- "Modified" otherwise, with a similarity score and a severity band.

Then comes one "New in Q4" row for every code that only the after snapshot
has. A summary counts the report's rows by status and by severity.

The repository holds the engine twice. They differ only in the scorer and the
severity thresholds:

- `code_analysis.py` uses the cosine of text embeddings, with bands 0.55 and 0.80;
- `simple_code_analysis.py` uses a lexical ratio, with bands 0.4 and 0.75.

The model writes it once (modules `Text`, `Columns`, `Classification`,
`Reconcile`, `ReconcileFacts`, `Summaries`). The scorer is a function
parameter and the bands are a value. The modules `CodeAnalysis` and
`SimpleCodeAnalysis` instantiate the engine for each file. The column
functions and `compute_summary` are identical in the two files; the rows
below cite `code_analysis.py`, and the same lines exist at
`simple_code_analysis.py:9-18` and `simple_code_analysis.py:27-37`. The module
`Scenarios` works three small reconciliations through to their report and
summary.

How the model is shaped:

- A record is `Record(code, text)`: its code, and the text of the compared column.
- An empty Similarity cell is `Blank`; a filled one is `Score(value)`.
- Every call of the scorer is logged, in order, in the `calls` out-parameter.
  This lets the contracts state that the scorer is called exactly for the
  modified rows.
- New codes are taken from the set of new codes in an unspecified order.
  Their properties are therefore stated over the multiset of the new rows'
  codes, never over a fixed order.

## Model

| member | source | states |
|---|---|---|
| Text.TrimStart | code_analysis.py:77 | the leading-whitespace cut of `str.strip`: never longer, everything cut is whitespace, the rest does not start with whitespace |
| Text.TrimStartIsSuffix | code_analysis.py:77 | what is kept after the leading whitespace is a suffix of the text |
| Text.TrimEnd | code_analysis.py:77 | the trailing-whitespace cut: never longer, everything cut is whitespace, the rest does not end with whitespace |
| Text.TrimEndIsPrefix | code_analysis.py:77 | what is kept before the trailing whitespace is a prefix of the text |
| Text.Strip | code_analysis.py:77-78 | `str.strip()`: the result neither starts nor ends with whitespace and fits after the leading whitespace |
| Text.StripIsSlice | code_analysis.py:77-78 | the stripped text is the contiguous slice after the leading whitespace, and everything outside it is whitespace |
| Text.StripOfStripped | code_analysis.py:77-78 | a text without surrounding whitespace is its own strip |
| Text.StripIdempotent | code_analysis.py:77-78 | stripping twice is stripping once |
| Text.LowerChar | code_analysis.py:19 | `lower()` of one character: an ASCII capital becomes its own small letter (32 code points on), every other character is kept |
| Text.Lower | code_analysis.py:19 | `lower()` keeps the length and lowers each character in place |
| Text.ReplaceChar | code_analysis.py:14 | `replace` of one character keeps the length and swaps exactly the occurrences of that character |
| Columns.NormalizeName | code_analysis.py:14 | a header name, normalized, is the stripped name with each line feed and carriage return turned into a space and every other character kept in place; it holds no line break and no surrounding whitespace |
| Columns.NormalizeNameIdempotent | code_analysis.py:14 | normalizing a normalized name changes nothing |
| Columns.Sheet.constructor | code_analysis.py:13-15 | a sheet holds the header names it was given |
| Columns.Sheet.NormalizeColumns | code_analysis.py:13-15 | `normalize_columns` reassigns the headers in place: same number and order, each one normalized, none with a line break |
| Columns.LowerAll | code_analysis.py:19 | the aliases lower-cased one by one, in order |
| Columns.MatchesIgnoresCase | code_analysis.py:19 | matching a column against the aliases ignores the case of the column |
| Columns.FindColumn | code_analysis.py:17-21 | a column is found exactly when one matches; it is the first match in column order; otherwise the `KeyError` names the aliases |
| Classification.StatusLabelInjective | code_analysis.py:64-127 | the four Status cells the report writes ("No Change", "Modified", "New in Q4", "Removed in Q4") are distinct, one per status |
| Classification.SeverityLabelInjective | code_analysis.py:64-127 | the five Severity cells the report writes ("No Change", "Minor Wording Change", "Moderate Change", "Severe Change", "New Entry") are distinct, one per severity |
| Classification.Classify | code_analysis.py:96-100 | exactly one of the three bands holds: severe below the first threshold, moderate from it up to the second, minor from the second on |
| Classification.ClassifyMonotone | code_analysis.py:96-100 | a higher similarity never gets a heavier severity |
| Reconcile.NewCodesPartition | code_analysis.py:115 | the new codes are after codes and no before code, and together with the before codes they are every code of either side |
| Reconcile.Lookup | code_analysis.py:57 | the code→row lookup holds exactly the after codes, each mapped to a row with that code |
| Reconcile.LastIndex | code_analysis.py:57 | the position of the last row with a code: it carries the code and no later row does |
| Reconcile.FirstIndex | code_analysis.py:118 | the position of the first row with a code (`iloc[0]`): it carries the code and no earlier row does |
| Reconcile.LookupIsLastRow | code_analysis.py:57 | of duplicate after codes, the last row wins the lookup |
| Reconcile.CompareRow | code_analysis.py:61-110 | one before row's report row: removed (with its raw text) exactly when the code is missing; otherwise both texts stripped, unchanged exactly when they are equal, modified exactly when they differ, with the scorer's verdict on the stripped texts; never a new entry; the row keeps the change-record invariant |
| Reconcile.NewRow | code_analysis.py:118-127 | the row of a new code: status "New in Q4", severity "New Entry", no Q3 value, no similarity, and the raw text of the first after row with the code as Q4 value |
| Reconcile.ScoredPairsAppend | code_analysis.py:92-94 | the scorer calls of two stretches of rows are those of the first followed by those of the second |
| Reconcile.ScoredPairsOfUnmodified | code_analysis.py:117-127 | rows none of which is modified cost no scorer call |
| Reconcile.Compare | code_analysis.py:53-129 | `semantic_compare` builds a reconciled report, and the scorer is called once per modified row, in order, on its two texts, and for no other row |
| Reconcile.Assemble | code_analysis.py:112-129 | the before part followed by the new-entry rows is a reconciled report whose scorer calls are those of the before part |
| Reconcile.BuildLookup | code_analysis.py:57 | the dict comprehension's loop builds exactly the lookup |
| Reconcile.CompareBefore | code_analysis.py:60-110 | the loop over the before rows appends one row per before row, in order, each as `CompareRow` says, and logs a scorer call exactly for the modified ones |
| Reconcile.NewRowsForStep | code_analysis.py:117-127 | appending the row of one more new code keeps every code of the new rows exactly once |
| Reconcile.AppendNewRows | code_analysis.py:113-127 | the rows already built are kept; then one new-entry row is added for each code only the after rows have, each exactly once |
| ReconcileFacts.SequenceOfSet | code_analysis.py:115-117 | a sequence with the multiset of a set has each element of the set exactly once and no other element |
| ReconcileFacts.NewRowsDistinct | code_analysis.py:115-127 | there are as many new-entry rows as new codes; every new code has one and no two share a code |
| ReconcileFacts.ReportLength | code_analysis.py:60-127 | the report has \|before\| + \|after codes − before codes\| rows |
| ReconcileFacts.ReportStatuses | code_analysis.py:60-127 | a before row keeps its code, is never new, and is removed exactly when its code is missing from the after rows; every later row is a new entry for an after-only code with an empty Q3 value and the raw text of the first after row with that code |
| ReconcileFacts.MatchedUsesLastRow | code_analysis.py:57-78 | a matched before row compares its stripped text with the stripped text of the last after row with its code |
| ReconcileFacts.ModifiedRows | code_analysis.py:92-110 | only before rows are modified; a modified row has two different texts, the scorer's verdict on them, and the severity of that verdict's band |
| ReconcileFacts.ReportWellFormed | code_analysis.py:63-127 | every report row keeps the change-record invariant: removed is severe with empty Q4 and similarity; new is a new entry with empty Q3 and similarity; unchanged has equal values, 1.0 and "No Change"; modified has different values and a banded score |
| ReconcileFacts.ReportCodeCounts | code_analysis.py:60-127 | the report's codes are the before codes in order, followed by every new code exactly once |
| ReconcileFacts.ReportCoverage | code_analysis.py:60-127 | the codes of the report are exactly the before codes together with the after codes |
| ReconcileFacts.ReportExactlyOnce | code_analysis.py:60-127 | when the before codes are distinct, no two report rows share a code and every key of before ∪ after occurs exactly once |
| ReconcileFacts.DistinctMultiset | code_analysis.py:113-117 | a sequence without repetitions whose elements are those of a set has that set's multiset |
| ReconcileFacts.ReportDeterministic | code_analysis.py:53-129 | two reports for the same inputs have the same length, the same rows for the before rows, and the same new-entry rows |
| ReconcileFacts.NewRowsSameRows | code_analysis.py:117-127 | two runs of new-entry rows for the same codes hold the same rows, whatever the order |
| ReconcileFacts.ScoredPairsDiffer | code_analysis.py:80-94 | the scorer is never called on two equal texts |
| Summaries.CountStatus | code_analysis.py:43-49 | a count of rows by their Status cell never exceeds the number of rows |
| Summaries.CountSeverity | code_analysis.py:45-47 | a count of rows by their Severity cell never exceeds the number of rows |
| Summaries.CountStatusByStatus | code_analysis.py:43-49 | counting rows by a status's Status cell is the number of rows with that status (its multiplicity in the Status column) |
| Summaries.StatusStep | code_analysis.py:43-49 | one more row adds one to its own status's count, in both countings |
| Summaries.CountSeverityBySeverity | code_analysis.py:45-47 | counting rows by a severity's Severity cell is the number of rows with that severity |
| Summaries.SeverityStep | code_analysis.py:45-47 | one more row adds one to its own severity's count, in both countings |
| Summaries.ComputeSummary | code_analysis.py:39-50 | an empty report fails with `KeyError` on the Status column (a data frame built from no rows has no columns); otherwise "Total in Q3" is the number of report rows, the four status counts add up to it, and the three change-severity counts never exceed it; what each counter counts is stated by `Summaries.SummaryCounts` |
| Summaries.SummaryCounts | code_analysis.py:42-49 | on a non-empty report each summary counter counts its own status or severity: "No Change", "Modified", "New in Q4" and "Removed in Q4" the rows with that status; "Severe Change", "Moderate Change" and "Minor Change" the rows with a severe, moderate or minor-wording severity |
| Summaries.StatusPartition | code_analysis.py:42-49 | the four status counts partition the report |
| Summaries.SeverityPartition | code_analysis.py:45-47 | the five severity counts partition the report |
| Summaries.CountAppend | code_analysis.py:43-49 | status and severity counts over two stretches of rows add up |
| Summaries.CountStatusExtremes | code_analysis.py:43-49 | rows that never carry a status count zero for it; rows that all carry it count them all |
| Summaries.CountMissing | code_analysis.py:63 | the number of before rows whose code is missing never exceeds the number of before rows |
| Summaries.RemovedCount | code_analysis.py:49 | rows removed exactly where the matching before row's code is missing count as many removals as there are such rows |
| Summaries.SeverityByStatus | code_analysis.py:43-49 | over well-formed rows, "No Change" severities are the unchanged rows, "New Entry" severities the new rows, and the three change severities the modified and removed rows |
| Summaries.ScoredPairsCount | code_analysis.py:44 | the number of scorer calls is the "Modified" count |
| Summaries.ReconciledSummary | code_analysis.py:39-129 | the summary of a reconciled report fails exactly when there are neither before nor after rows; otherwise the total is the before rows plus the new codes; "New in Q4" is the number of new codes; unchanged + modified + removed is the number of before rows; removed is the number of before rows with a missing code; the change severities are the modified and removed rows; "Modified" is the number of scorer calls |
| Summaries.ReconciledCounts | code_analysis.py:39-129 | the same facts about a reconciled report, stated on its Status and Severity counts |
| Summaries.ReconciledStatusCounts | code_analysis.py:60-127 | the status counts: new entries are the new codes; unchanged, modified and removed rows are the before rows; removals are the before rows with a missing code |
| Summaries.StatusCountsOfSplit | code_analysis.py:39-50 | the status counts of a report whose first part stands for the before rows and whose rest is new entries |
| Summaries.SummaryOfParts | code_analysis.py:39-50 | the counting argument over the before part and the new-entry part of a report |
| CodeAnalysis.EmbeddingBandBoundaries | code_analysis.py:96-100 | the embedding bands: severe below 0.55, moderate from 0.55 up to 0.80, minor from 0.80; 0.54999, 0.55, 0.79999 and 0.80 fall on the right sides |
| CodeAnalysis.EmbedInput | code_analysis.py:25-26 | a blank text is sent to the provider as "empty"; any other text as it is; what is sent is never blank |
| CodeAnalysis.EmbeddingScore | code_analysis.py:92-94 | the embedding scorer depends on each text only through what `embed` sends to the provider |
| CodeAnalysis.EmbedInputIdempotent | code_analysis.py:25-26 | preparing a text for the provider twice is preparing it once |
| CodeAnalysis.BlankScoresAsEmpty | code_analysis.py:23-36 | a blank text scores exactly as the word "empty" does, on either side |
| CodeAnalysis.SemanticCompare | code_analysis.py:53-129 | the embedding engine: a reconciled report; one scorer call per modified row; a modified row's score is the cosine of the two texts' embeddings, banded at 0.55 and 0.80 |
| SimpleCodeAnalysis.LexicalBandBoundaries | simple_code_analysis.py:73-78 | the lexical bands: severe below 0.4, moderate from 0.4 up to 0.75, minor from 0.75; 0.39999, 0.4, 0.74999 and 0.75 fall on the right sides |
| SimpleCodeAnalysis.TextSimilarity | simple_code_analysis.py:21-23 | two empty texts score exactly 1.0 |
| SimpleCodeAnalysis.LexicalScore | simple_code_analysis.py:71 | the lexical scorer gives two empty texts 1.0 and two different texts their ratio |
| SimpleCodeAnalysis.TextSimilarityOfDistinct | simple_code_analysis.py:21-24 | on two different texts `text_similarity` is the ratio itself |
| SimpleCodeAnalysis.SemanticCompare | simple_code_analysis.py:40-108 | the lexical engine: a reconciled report; one ratio call per modified row; a modified row's similarity is the ratio of its two stripped texts, banded at 0.4 and 0.75 |
| SimpleCodeAnalysis.LexicalModifiedRows | simple_code_analysis.py:66-90 | in a lexical report, the empty-texts branch never decides a modified row's similarity, and the severity is that ratio's lexical band |
| SimpleCodeAnalysis.CompareBefore | simple_code_analysis.py:47-90 | the lexical loop, with status, similarity and severity chosen in branches before one append, yields one row per before row as `CompareRow` says and logs a ratio call exactly for the modified rows |
| Scenarios.UnchangedAndNew | code_analysis.py:53-129 | A1 unchanged next to a new A2: the report is A1 "No Change" with 1.0, then A2 "New Entry"; the summary is 2, 1, 0, 0, 0, 0, 1, 0; no scorer call |
| Scenarios.UnchangedAndNewReport | code_analysis.py:53-129 | the report of that scenario, row by row |
| Scenarios.UnchangedAndNewParts | code_analysis.py:57-127 | that scenario's new codes, A1's compared row and A2's new row |
| Scenarios.UnchangedAndNewSummary | code_analysis.py:39-50 | that scenario's summary counts and its lack of scorer calls |
| Scenarios.Removed | code_analysis.py:63-73 | B1 with no after rows: the report is B1 "Removed in Q4" with its text, empty Q4 value and no similarity; the summary is 1, 0, 0, 1, 0, 0, 0, 1 |
| Scenarios.NothingToCompare | code_analysis.py:39-129 | with neither before nor after rows the report is empty and the summary fails on its missing Status column |

## Left out

- Excel input and output are not modelled. This covers `pd.read_excel`, `ExcelWriter`, `load_workbook`, `wb.save`, `write_summary`, `apply_conditional_formatting`, `process_file` and the `print` calls; they are I/O and presentation.
- The text column examined is not modelled as a lookup. A record holds only its code and the text of that column. The `row[text_column]` lookup, and the `KeyError` when the after sheet lacks the column, are left out.
- Embedding is not modelled. `embed`'s provider call, `genai.configure` and the `dotenv` loading are network and configuration code. The provider is a function parameter; only the blank→"empty" substitution is modelled (`CodeAnalysis.EmbedInput`).
- `cosine_similarity` and `SequenceMatcher(...).ratio()` are not modelled. They are floating-point and library code. Both are function parameters returning a `real`.
- The rounding `round(sim, 4)` is not modelled. The stored similarity is the unrounded score, which is also the one the bands classify, as in the source. The Similarity cell the source writes is rounded, so it can fall on the other side of a threshold than the severity beside it (a score of 0.549996 is written as 0.55 next to "Severe Change"); the change-record invariant `Reconcile.WellFormed`, "the severity is the band of the similarity", holds for the unrounded score only.
- The NaN→"" replacements are not modelled. Missing cells are taken to be empty strings already.
- The conversion `astype(str)` of the Code column is not modelled. Codes are strings from the start.
- A `None` text in `embed` is not modelled. Texts are always strings.
- Text.LowerChar: it lowers only the ASCII letters. Python's `lower()` also lowers the other Unicode capitals.
- The order in which the set of new codes is walked is not modelled. The Python `set` order is unspecified, so the loop picks any remaining code, and the report's new rows are specified in any order.
- Reconcile.Compare: when the before rows repeat a code, the report repeats it too. The promise that every key is reported exactly once is therefore proved under distinct before codes (`ReconcileFacts.ReportExactlyOnce`).
- Summaries.ComputeSummary: "Total in Q3" counts every report row, new entries included. The model keeps the code's meaning rather than the name's.
- `Columns.FindColumn` does not turn line breaks into spaces and does not strip the aliases, just as `find_column` does not; line breaks in header names are replaced earlier, by `normalize_columns`.
- Errors from the scorer are not modelled; the scorer is total. Retries and timeouts do not occur in the code either.
