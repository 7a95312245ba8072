/**
 * The difference summary (`compute_summary`): a counting reduction over a
 * report, by the labels written in its Status and Severity columns, and
 * what those counts say about a reconciled report.
 */
module Summaries {
  import opened Classification
  import opened Reconcile
  import opened ReconcileFacts

  /** The eight counters of the summary block, in the order they are written. */
  datatype Summary = Summary(
    totalInQ3: nat,
    noChange: nat,
    modified: nat,
    severeChange: nat,
    moderateChange: nat,
    minorChange: nat,
    newInQ4: nat,
    removedInQ4: nat)

  /** The number of rows whose Status column reads `cell`
      (`(df["Status"] == cell).sum()`). */
  function CountStatus(rows: seq<ReportRow>, cell: string): (n: nat)
    ensures n <= |rows|
  {
    if rows == [] then 0
    else CountStatus(rows[..|rows| - 1], cell) + if StatusLabel(rows[|rows| - 1].status) == cell then 1 else 0
  }

  /** The number of rows whose Severity column reads `cell`. */
  function CountSeverity(rows: seq<ReportRow>, cell: string): (n: nat)
    ensures n <= |rows|
  {
    if rows == [] then 0
    else CountSeverity(rows[..|rows| - 1], cell) + if SeverityLabel(rows[|rows| - 1].severity) == cell then 1 else 0
  }

  /** The Status column of a report, as statuses. */
  function Statuses(rows: seq<ReportRow>): (ss: seq<Status>)
    ensures |ss| == |rows|
    ensures forall i {:trigger ss[i]} :: 0 <= i < |rows| ==> ss[i] == rows[i].status
  {
    seq(|rows|, i requires 0 <= i < |rows| => rows[i].status)
  }

  /** The Severity column of a report, as severities. */
  function Severities(rows: seq<ReportRow>): (ss: seq<Severity>)
    ensures |ss| == |rows|
    ensures forall i {:trigger ss[i]} :: 0 <= i < |rows| ==> ss[i] == rows[i].severity
  {
    seq(|rows|, i requires 0 <= i < |rows| => rows[i].severity)
  }

  /** Counting the rows whose Status cell reads a status's label is counting
      the rows that have that status, since no two statuses share a label. */
  lemma {:induction false} CountStatusByStatus(rows: seq<ReportRow>, s: Status)
    ensures CountStatus(rows, StatusLabel(s)) == multiset(Statuses(rows))[s]
  {
    if rows != [] {
      var init, last := rows[..|rows| - 1], rows[|rows| - 1];
      assert rows == init + [last];
      CountStatusByStatus(init, s);
      StatusStep(init, last, s);
    }
  }

  /** One more row adds one to its own status's count, in both countings. */
  lemma StatusStep(init: seq<ReportRow>, last: ReportRow, s: Status)
    ensures CountStatus(init + [last], StatusLabel(s)) == CountStatus(init, StatusLabel(s)) + if last.status == s then 1 else 0
    ensures multiset(Statuses(init + [last]))[s] == multiset(Statuses(init))[s] + if last.status == s then 1 else 0
  {
    assert (init + [last])[..|init|] == init;
    assert Statuses(init + [last]) == Statuses(init) + [last.status];
    StatusLabelInjective(last.status, s);
  }

  /** Counting the rows whose Severity cell reads a severity's label is
      counting the rows that have that severity. */
  lemma {:induction false} CountSeverityBySeverity(rows: seq<ReportRow>, s: Severity)
    ensures CountSeverity(rows, SeverityLabel(s)) == multiset(Severities(rows))[s]
  {
    if rows != [] {
      var init, last := rows[..|rows| - 1], rows[|rows| - 1];
      assert rows == init + [last];
      CountSeverityBySeverity(init, s);
      SeverityStep(init, last, s);
    }
  }

  /** One more row adds one to its own severity's count, in both countings. */
  lemma SeverityStep(init: seq<ReportRow>, last: ReportRow, s: Severity)
    ensures CountSeverity(init + [last], SeverityLabel(s)) == CountSeverity(init, SeverityLabel(s)) + if last.severity == s then 1 else 0
    ensures multiset(Severities(init + [last]))[s] == multiset(Severities(init))[s] + if last.severity == s then 1 else 0
  {
    assert (init + [last])[..|init|] == init;
    assert Severities(init + [last]) == Severities(init) + [last.severity];
    SeverityLabelInjective(last.severity, s);
  }

  /** What `compute_summary` gives: the summary, or the `KeyError` it raises
      when a column it reads is missing. */
  datatype SummaryResult = Summarized(summary: Summary) | MissingColumn(name: string)

  /** `compute_summary`. An empty report is a data frame with no columns at
      all, so reading its Status column fails. Otherwise "Total in Q3" is the
      number of all report rows, new entries included; the four status
      counters add up to it, and the three change-severity counters never
      exceed it. */
  function ComputeSummary(report: seq<ReportRow>): (r: SummaryResult)
    ensures r.MissingColumn? <==> report == []
    ensures r.MissingColumn? ==> r.name == "Status"
    ensures r.Summarized? ==> && r.summary.totalInQ3 == |report|
                              && r.summary.noChange + r.summary.modified + r.summary.newInQ4
                                 + r.summary.removedInQ4 == r.summary.totalInQ3
                              && r.summary.severeChange + r.summary.moderateChange
                                 + r.summary.minorChange <= r.summary.totalInQ3
  {
    if report == [] then MissingColumn("Status")
    else
      StatusPartition(report);
      SeverityPartition(report);
      Summarized(Summary(
        |report|,
        CountStatus(report, "No Change"),
        CountStatus(report, "Modified"),
        CountSeverity(report, "Severe Change"),
        CountSeverity(report, "Moderate Change"),
        CountSeverity(report, "Minor Wording Change"),
        CountStatus(report, "New in Q4"),
        CountStatus(report, "Removed in Q4")))
  }

  /** Each counter of a summary counts its own status or severity: the
      rows with that status or severity in the report. */
  lemma SummaryCounts(report: seq<ReportRow>)
    requires report != []
    ensures var sum := ComputeSummary(report).summary;
            && sum.noChange == multiset(Statuses(report))[Unchanged]
            && sum.modified == multiset(Statuses(report))[Modified]
            && sum.newInQ4 == multiset(Statuses(report))[NewInQ4]
            && sum.removedInQ4 == multiset(Statuses(report))[RemovedInQ4]
            && sum.severeChange == multiset(Severities(report))[SevereChange]
            && sum.moderateChange == multiset(Severities(report))[ModerateChange]
            && sum.minorChange == multiset(Severities(report))[MinorWordingChange]
  {
    CountStatusByStatus(report, Unchanged);
    CountStatusByStatus(report, Modified);
    CountStatusByStatus(report, NewInQ4);
    CountStatusByStatus(report, RemovedInQ4);
    CountSeverityBySeverity(report, SevereChange);
    CountSeverityBySeverity(report, ModerateChange);
    CountSeverityBySeverity(report, MinorWordingChange);
  }

  /** Every row has exactly one of the four statuses, so the four status
      counts partition the report. */
  lemma {:induction false} StatusPartition(rows: seq<ReportRow>)
    ensures CountStatus(rows, "No Change") + CountStatus(rows, "Modified")
            + CountStatus(rows, "New in Q4") + CountStatus(rows, "Removed in Q4") == |rows|
  {
    if rows != [] {
      StatusPartition(rows[..|rows| - 1]);
    }
  }

  /** Every row has exactly one of the five severities, so the five severity
      counts partition the report. */
  lemma {:induction false} SeverityPartition(rows: seq<ReportRow>)
    ensures CountSeverity(rows, "No Change") + CountSeverity(rows, "Minor Wording Change")
            + CountSeverity(rows, "Moderate Change") + CountSeverity(rows, "Severe Change")
            + CountSeverity(rows, "New Entry") == |rows|
  {
    if rows != [] {
      SeverityPartition(rows[..|rows| - 1]);
    }
  }

  /** Counting over two stretches of rows adds up. */
  lemma {:induction false} CountAppend(a: seq<ReportRow>, b: seq<ReportRow>, cell: string)
    ensures CountStatus(a + b, cell) == CountStatus(a, cell) + CountStatus(b, cell)
    ensures CountSeverity(a + b, cell) == CountSeverity(a, cell) + CountSeverity(b, cell)
  {
    if b == [] {
      assert a + b == a;
    } else {
      var init := b[..|b| - 1];
      assert (a + b)[..|a + b| - 1] == a + init;
      assert (a + b)[|a + b| - 1] == b[|b| - 1];
      CountAppend(a, init, cell);
    }
  }

  /** Rows none of which carries a status cell count zero for it, and rows
      all of which carry it count them all. */
  lemma {:induction false} CountStatusExtremes(rows: seq<ReportRow>, cell: string)
    ensures (forall i :: 0 <= i < |rows| ==> StatusLabel(rows[i].status) != cell) ==> CountStatus(rows, cell) == 0
    ensures (forall i :: 0 <= i < |rows| ==> StatusLabel(rows[i].status) == cell) ==> CountStatus(rows, cell) == |rows|
  {
    if rows != [] {
      CountStatusExtremes(rows[..|rows| - 1], cell);
    }
  }

  /** The number of snapshot rows whose code is not among `codes`. */
  function CountMissing(rows: seq<Record>, codes: set<string>): (n: nat)
    ensures n <= |rows|
  {
    if rows == [] then 0
    else CountMissing(rows[..|rows| - 1], codes) + if rows[|rows| - 1].code !in codes then 1 else 0
  }

  /** Rows that are removed exactly where the matching snapshot row's code is
      missing count as many removals as there are missing codes. */
  lemma {:induction false} RemovedCount(rows: seq<ReportRow>, before: seq<Record>, codes: set<string>)
    requires |rows| == |before|
    requires forall i :: 0 <= i < |rows| ==> (rows[i].status == RemovedInQ4 <==> before[i].code !in codes)
    ensures CountStatus(rows, "Removed in Q4") == CountMissing(before, codes)
  {
    if rows != [] {
      RemovedCount(rows[..|rows| - 1], before[..|before| - 1], codes);
    }
  }

  /** Over rows that keep the change-record invariant, the severity counts
      follow the status counts: "No Change" severities are the unchanged rows,
      "New Entry" ones the new rows, and the three change severities the
      modified and the removed rows together. */
  lemma {:induction false} SeverityByStatus(rows: seq<ReportRow>, bands: Bands)
    requires forall i :: 0 <= i < |rows| ==> WellFormed(rows[i], bands)
    ensures CountSeverity(rows, "No Change") == CountStatus(rows, "No Change")
    ensures CountSeverity(rows, "New Entry") == CountStatus(rows, "New in Q4")
    ensures CountSeverity(rows, "Severe Change") + CountSeverity(rows, "Moderate Change")
            + CountSeverity(rows, "Minor Wording Change")
            == CountStatus(rows, "Modified") + CountStatus(rows, "Removed in Q4")
  {
    if rows != [] {
      SeverityByStatus(rows[..|rows| - 1], bands);
    }
  }

  /** The scorer is called once per modified row. */
  lemma {:induction false} ScoredPairsCount(rows: seq<ReportRow>)
    ensures |ScoredPairs(rows)| == CountStatus(rows, "Modified")
  {
    if rows != [] {
      ScoredPairsCount(rows[..|rows| - 1]);
    }
  }

  /** The summary of a reconciled report. It fails exactly when there are
      neither before nor after rows. Otherwise there is one new entry per new code; the
      unchanged, modified and removed rows are the before rows; the removed
      ones are the before rows whose code the after rows lack; the change
      severities are the modified and removed rows, and "Modified" is the
      number of scorer calls. */
  lemma ReconciledSummary(report: seq<ReportRow>, before: seq<Record>, after: seq<Record>,
                          column: string, bands: Bands, score: Scorer)
    requires Reconciled(report, before, after, column, bands, score)
    ensures ComputeSummary(report).MissingColumn? <==> before == [] && after == []
    ensures ComputeSummary(report).Summarized? ==>
            var sum := ComputeSummary(report).summary;
            && sum.totalInQ3 == |before| + |NewCodes(before, after)|
            && sum.newInQ4 == |NewCodes(before, after)|
            && sum.noChange + sum.modified + sum.removedInQ4 == |before|
            && sum.removedInQ4 == CountMissing(before, Codes(after))
            && sum.noChange == CountSeverity(report, "No Change")
            && sum.severeChange + sum.moderateChange + sum.minorChange == sum.modified + sum.removedInQ4
            && sum.modified == |ScoredPairs(report)|
  {
    ReportLength(report, before, after, column, bands, score);
    if before == [] && after != [] {
      assert after[0].code in NewCodes(before, after);
    }
    ReconciledCounts(report, before, after, column, bands, score);
  }

  /** The counts behind `ReconciledSummary`, column by column. */
  lemma ReconciledCounts(report: seq<ReportRow>, before: seq<Record>, after: seq<Record>,
                         column: string, bands: Bands, score: Scorer)
    requires Reconciled(report, before, after, column, bands, score)
    ensures |report| == |before| + |NewCodes(before, after)|
    ensures CountStatus(report, "New in Q4") == |NewCodes(before, after)|
    ensures CountStatus(report, "No Change") + CountStatus(report, "Modified")
            + CountStatus(report, "Removed in Q4") == |before|
    ensures CountStatus(report, "Removed in Q4") == CountMissing(before, Codes(after))
    ensures CountStatus(report, "No Change") == CountSeverity(report, "No Change")
    ensures CountSeverity(report, "Severe Change") + CountSeverity(report, "Moderate Change")
            + CountSeverity(report, "Minor Wording Change")
            == CountStatus(report, "Modified") + CountStatus(report, "Removed in Q4")
    ensures CountStatus(report, "Modified") == |ScoredPairs(report)|
  {
    ReconciledStatusCounts(report, before, after, column, bands, score);
    ReportWellFormed(report, before, after, column, bands, score);
    SeverityByStatus(report, bands);
    ScoredPairsCount(report);
  }

  /** The status counts of a reconciled report: its first part counts the
      before rows, its second the new codes. */
  lemma ReconciledStatusCounts(report: seq<ReportRow>, before: seq<Record>, after: seq<Record>,
                               column: string, bands: Bands, score: Scorer)
    requires Reconciled(report, before, after, column, bands, score)
    ensures |report| == |before| + |NewCodes(before, after)|
    ensures CountStatus(report, "New in Q4") == |NewCodes(before, after)|
    ensures CountStatus(report, "No Change") + CountStatus(report, "Modified")
            + CountStatus(report, "Removed in Q4") == |before|
    ensures CountStatus(report, "Removed in Q4") == CountMissing(before, Codes(after))
  {
    ReportLength(report, before, after, column, bands, score);
    ReportStatuses(report, before, after, column, bands, score);
    StatusCountsOfSplit(report, before, Codes(after));
  }

  /** `SummaryOfParts` for a report whose first rows stand for the before
      rows and whose remaining rows are all new entries. */
  lemma StatusCountsOfSplit(report: seq<ReportRow>, before: seq<Record>, codes: set<string>)
    requires |before| <= |report|
    requires forall i :: 0 <= i < |before| ==> report[i].status != NewInQ4
    requires forall i :: 0 <= i < |before| ==> (report[i].status == RemovedInQ4 <==> before[i].code !in codes)
    requires forall j :: |before| <= j < |report| ==> report[j].status == NewInQ4
    ensures CountStatus(report, "New in Q4") == |report| - |before|
    ensures CountStatus(report, "No Change") + CountStatus(report, "Modified")
            + CountStatus(report, "Removed in Q4") == |before|
    ensures CountStatus(report, "Removed in Q4") == CountMissing(before, codes)
  {
    var head, tail := report[..|before|], report[|before|..];
    assert report == head + tail;
    forall j | 0 <= j < |tail| ensures tail[j].status == NewInQ4 {
      assert tail[j] == report[|before| + j];
    }
    SummaryOfParts(head, tail, before, codes);
  }

  /** The counting argument of `ReconciledStatusCounts`, over the two parts of a
      report: rows for the before rows, none of them new, removed where the
      code is missing; then new-entry rows only. */
  lemma SummaryOfParts(head: seq<ReportRow>, tail: seq<ReportRow>, before: seq<Record>, codes: set<string>)
    requires |head| == |before|
    requires forall i :: 0 <= i < |head| ==> head[i].status != NewInQ4
    requires forall i :: 0 <= i < |head| ==> (head[i].status == RemovedInQ4 <==> before[i].code !in codes)
    requires forall j :: 0 <= j < |tail| ==> tail[j].status == NewInQ4
    ensures CountStatus(head + tail, "New in Q4") == |tail|
    ensures CountStatus(head + tail, "No Change") + CountStatus(head + tail, "Modified")
            + CountStatus(head + tail, "Removed in Q4") == |before|
    ensures CountStatus(head + tail, "Removed in Q4") == CountMissing(before, codes)
  {
    CountAppend(head, tail, "No Change");
    CountAppend(head, tail, "Modified");
    CountAppend(head, tail, "New in Q4");
    CountAppend(head, tail, "Removed in Q4");
    CountStatusExtremes(head, "New in Q4");
    CountStatusExtremes(tail, "No Change");
    CountStatusExtremes(tail, "Modified");
    CountStatusExtremes(tail, "New in Q4");
    CountStatusExtremes(tail, "Removed in Q4");
    StatusPartition(head);
    RemovedCount(head, before, codes);
  }
}
