/**
 * Three worked reconciliations: a code kept unchanged next to a new code, a
 * code that disappears, and nothing to compare at all. They hold for every
 * scorer and every pair of bands, since none of the reports calls the scorer.
 */
module Scenarios {
  import opened Text
  import opened Classification
  import opened Reconcile
  import opened ReconcileFacts
  import opened Summaries

  /** The report of the first scenario: A1 unchanged, then A2 new. */
  function UnchangedAndNewRows(column: string): seq<ReportRow> {
    [ReportRow("A1", Unchanged, column, "Patient must submit form X", "Patient must submit form X", Score(1.0), NoChange),
     ReportRow("A2", NewInQ4, column, "", "New rule", Blank, NewEntry)]
  }

  /** A1 keeps its text and A2 is new: the report is A1 unchanged with
      similarity 1.0, then A2 as a new entry; the summary counts two rows,
      one unchanged and one new, and no scorer call is made. */
  lemma UnchangedAndNew(report: seq<ReportRow>, column: string, bands: Bands, score: Scorer)
    requires Reconciled(report, [Record("A1", "Patient must submit form X")],
                        [Record("A1", "Patient must submit form X"), Record("A2", "New rule")],
                        column, bands, score)
    ensures report == UnchangedAndNewRows(column)
    ensures ComputeSummary(report) == Summarized(Summary(2, 1, 0, 0, 0, 0, 1, 0))
    ensures ScoredPairs(report) == []
  {
    UnchangedAndNewReport(report, column, bands, score);
    UnchangedAndNewSummary(column);
  }

  /** The counts of the first scenario's report. */
  lemma UnchangedAndNewSummary(column: string)
    ensures ComputeSummary(UnchangedAndNewRows(column)) == Summarized(Summary(2, 1, 0, 0, 0, 0, 1, 0))
    ensures ScoredPairs(UnchangedAndNewRows(column)) == []
  {
    var rows := UnchangedAndNewRows(column);
    var first, second := [rows[0]], [rows[1]];
    assert rows == first + second;
    assert first[..0] == [] && second[..0] == [];
    CountAppend(first, second, "No Change");
    CountAppend(first, second, "Modified");
    CountAppend(first, second, "New in Q4");
    CountAppend(first, second, "Removed in Q4");
    CountAppend(first, second, "Severe Change");
    CountAppend(first, second, "Moderate Change");
    CountAppend(first, second, "Minor Wording Change");
    ScoredPairsAppend(first, second);
  }

  lemma UnchangedAndNewReport(report: seq<ReportRow>, column: string, bands: Bands, score: Scorer)
    requires Reconciled(report, [Record("A1", "Patient must submit form X")],
                        [Record("A1", "Patient must submit form X"), Record("A2", "New rule")],
                        column, bands, score)
    ensures report == UnchangedAndNewRows(column)
  {
    var before := [Record("A1", "Patient must submit form X")];
    var after := [Record("A1", "Patient must submit form X"), Record("A2", "New rule")];
    UnchangedAndNewParts(column, bands, score);
    ReportLength(report, before, after, column, bands, score);
    assert report[1] == report[1..][0];
  }

  /** The pieces of the first scenario, worked out apart from the report. */
  lemma UnchangedAndNewParts(column: string, bands: Bands, score: Scorer)
    ensures var before := [Record("A1", "Patient must submit form X")];
            var after := [Record("A1", "Patient must submit form X"), Record("A2", "New rule")];
            && NewCodes(before, after) == {"A2"}
            && CompareRow(before[0], Lookup(after), column, bands, score) == UnchangedAndNewRows(column)[0]
            && NewRow("A2", after, column) == UnchangedAndNewRows(column)[1]
  {
    var text := "Patient must submit form X";
    var before := [Record("A1", text)];
    var after := [Record("A1", text), Record("A2", "New rule")];
    assert Codes(before) == {"A1"} by {
      assert before[0].code == "A1";
    }
    assert Codes(after) == {"A1", "A2"} by {
      assert after[0].code == "A1" && after[1].code == "A2";
    }
    LookupIsLastRow(after, "A1");
    assert LastIndex(after, "A1") == 0;
    StripOfStripped(text);
    assert FirstIndex(after, "A2") == 1;
  }

  /** B1 disappears: the report is B1 removed, with its text as Q3 value,
      no Q4 value and no similarity; the summary counts one row, one severe
      change and one removal. */
  lemma Removed(report: seq<ReportRow>, column: string, bands: Bands, score: Scorer)
    requires Reconciled(report, [Record("B1", "Approval required within 30 days")], [], column, bands, score)
    ensures report == [ReportRow("B1", RemovedInQ4, column, "Approval required within 30 days", "", Blank, SevereChange)]
    ensures ComputeSummary(report) == Summarized(Summary(1, 0, 0, 1, 0, 0, 0, 1))
  {
    var before := [Record("B1", "Approval required within 30 days")];
    assert Codes([]) == {};
    ReportLength(report, before, [], column, bands, score);
  }

  /** With neither before nor after rows the report is empty, and the
      summary fails on its missing Status column. */
  lemma NothingToCompare(report: seq<ReportRow>, column: string, bands: Bands, score: Scorer)
    requires Reconciled(report, [], [], column, bands, score)
    ensures report == []
    ensures ComputeSummary(report) == MissingColumn("Status")
  {
    ReportLength(report, [], [], column, bands, score);
  }
}
