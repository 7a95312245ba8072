/**
 * The record reconciliation engine (`semantic_compare`): join the before
 * ("Q3") rows with the after ("Q4") rows by code and emit one report row per
 * before row, then one per code that only the after rows have. The
 * similarity scorer and the severity thresholds are parameters, so the same
 * engine serves the embedding backend of code_analysis.py and the lexical
 * backend of simple_code_analysis.py.
 */
module Reconcile {
  import opened Text
  import opened Classification

  /** A snapshot row, seen through the `Code` column and the compared text column. */
  datatype Record = Record(code: string, text: string)

  /** The `Similarity` cell: left empty, or holding a score. */
  datatype Similarity = Blank | Score(value: real)

  /** A report row: the columns Code, Status, Column, Q3 Value, Q4 Value,
      Similarity and Severity, in that order. */
  datatype ReportRow = ReportRow(
    code: string,
    status: Status,
    column: string,
    q3Value: string,
    q4Value: string,
    similarity: Similarity,
    severity: Severity)

  /** A similarity backend: the score of an (old text, new text) pair. */
  type Scorer = (string, string) -> real

  /** The set of codes of a list of rows (`set(df["Code"])`). */
  function Codes(rows: seq<Record>): set<string> {
    set i | 0 <= i < |rows| :: rows[i].code
  }

  lemma CodesSnoc(rows: seq<Record>, r: Record)
    ensures Codes(rows + [r]) == Codes(rows) + {r.code}
  {
    var s := rows + [r];
    forall k | k in Codes(rows) ensures k in Codes(s) {
      var i :| 0 <= i < |rows| && rows[i].code == k;
      assert s[i].code == k;
    }
    assert s[|rows|].code == r.code;
  }

  lemma CodesCons(r: Record, rows: seq<Record>)
    ensures Codes([r] + rows) == {r.code} + Codes(rows)
  {
    var s := [r] + rows;
    forall k | k in Codes(rows) ensures k in Codes(s) {
      var i :| 0 <= i < |rows| && rows[i].code == k;
      assert s[i + 1].code == k;
    }
    forall k | k in Codes(s) ensures k in {r.code} + Codes(rows) {
      var i :| 0 <= i < |s| && s[i].code == k;
      if i > 0 {
        assert rows[i - 1].code == k;
      }
    }
    assert s[0].code == r.code;
  }

  /** The code → row lookup over the after rows (`{row["Code"]: row for ...}`):
      it holds a key for every code and nothing else; of duplicate codes the
      row seen last wins. */
  function Lookup(rows: seq<Record>): (m: map<string, Record>)
    ensures m.Keys == Codes(rows)
    ensures forall k :: k in m ==> m[k].code == k
  {
    if rows == [] then map[]
    else
      var init, last := rows[..|rows| - 1], rows[|rows| - 1];
      assert rows == init + [last];
      CodesSnoc(init, last);
      Lookup(init)[last.code := last]
  }

  /** The position of the last row with a given code. */
  function LastIndex(rows: seq<Record>, code: string): (i: nat)
    requires code in Codes(rows)
    ensures i < |rows| && rows[i].code == code
    ensures forall j :: i < j < |rows| ==> rows[j].code != code
  {
    var init, last := rows[..|rows| - 1], rows[|rows| - 1];
    assert rows == init + [last];
    CodesSnoc(init, last);
    if last.code == code then |rows| - 1 else LastIndex(init, code)
  }

  /** The position of the first row with a given code (`df[df["Code"] == code].iloc[0]`). */
  function FirstIndex(rows: seq<Record>, code: string): (i: nat)
    requires code in Codes(rows)
    ensures i < |rows| && rows[i].code == code
    ensures forall j :: 0 <= j < i ==> rows[j].code != code
  {
    assert rows == [rows[0]] + rows[1..];
    CodesCons(rows[0], rows[1..]);
    if rows[0].code == code then 0 else 1 + FirstIndex(rows[1..], code)
  }

  /** Last write wins: the lookup maps a code to the last row carrying it. */
  lemma {:induction false} LookupIsLastRow(rows: seq<Record>, code: string)
    requires code in Codes(rows)
    ensures Lookup(rows)[code] == rows[LastIndex(rows, code)]
  {
    var init, last := rows[..|rows| - 1], rows[|rows| - 1];
    assert rows == init + [last];
    CodesSnoc(init, last);
    if last.code != code {
      LookupIsLastRow(init, code);
    }
  }

  /** The change-record invariant every report row keeps: a removed code is
      a severe change with no Q4 value and no similarity; a new code is a new
      entry with no Q3 value and no similarity; an unchanged row has equal
      values, similarity 1.0 and severity "No Change"; a modified row has
      different values, a score, and the severity of that score's band. */
  ghost predicate WellFormed(row: ReportRow, bands: Bands) {
    match row.status
    case RemovedInQ4 => row.severity == SevereChange && row.q4Value == "" && row.similarity == Blank
    case NewInQ4 => row.severity == NewEntry && row.q3Value == "" && row.similarity == Blank
    case Unchanged => row.severity == NoChange && row.q3Value == row.q4Value && row.similarity == Score(1.0)
    case Modified =>
      row.q3Value != row.q4Value && row.similarity.Score?
      && row.severity == Classify(bands, row.similarity.value)
  }

  /** The report row of one before row. A code missing from the lookup is
      removed and keeps its raw text; otherwise both texts are stripped, and
      the row is unchanged exactly when they are equal, and modified with the
      scorer's verdict on the two stripped texts when they are not. */
  function CompareRow(q3: Record, lookup: map<string, Record>, column: string, bands: Bands, score: Scorer): (row: ReportRow)
    ensures row.code == q3.code && row.column == column
    ensures WellFormed(row, bands)
    ensures row.status == RemovedInQ4 <==> q3.code !in lookup
    ensures row.status == RemovedInQ4 ==> row.q3Value == q3.text
    ensures q3.code in lookup ==>
              && row.q3Value == Strip(q3.text) && row.q4Value == Strip(lookup[q3.code].text)
              && (row.status == Unchanged <==> Strip(q3.text) == Strip(lookup[q3.code].text))
    ensures q3.code in lookup && Strip(q3.text) != Strip(lookup[q3.code].text) ==> row.status == Modified
    ensures row.status != NewInQ4
    ensures row.status == Modified ==> row.similarity == Score(score(row.q3Value, row.q4Value))
  {
    if q3.code !in lookup then
      ReportRow(q3.code, RemovedInQ4, column, q3.text, "", Blank, SevereChange)
    else
      var oldText, newText := Strip(q3.text), Strip(lookup[q3.code].text);
      if oldText == newText then
        ReportRow(q3.code, Unchanged, column, oldText, newText, Score(1.0), NoChange)
      else
        var sim := score(oldText, newText);
        ReportRow(q3.code, Modified, column, oldText, newText, Score(sim), Classify(bands, sim))
  }

  /** The report row of a code only the after rows have: a new entry with
      no Q3 value and no similarity, whose Q4 value is the raw text of the
      first after row with that code. */
  function NewRow(code: string, after: seq<Record>, column: string): (row: ReportRow)
    requires code in Codes(after)
    ensures row.code == code && row.column == column
    ensures row.status == NewInQ4 && row.severity == NewEntry
    ensures row.q3Value == "" && row.similarity == Blank
    ensures row.q4Value == after[FirstIndex(after, code)].text
  {
    ReportRow(code, NewInQ4, column, "", after[FirstIndex(after, code)].text, Blank, NewEntry)
  }

  /** The codes that appear only in the after rows (`q4_codes - q3_codes`). */
  function NewCodes(before: seq<Record>, after: seq<Record>): set<string> {
    Codes(after) - Codes(before)
  }

  /** The new codes are after codes and no before code; with the before
      codes they make up every code of either side. */
  lemma NewCodesPartition(before: seq<Record>, after: seq<Record>)
    ensures NewCodes(before, after) <= Codes(after) && NewCodes(before, after) !! Codes(before)
    ensures Codes(before) + NewCodes(before, after) == Codes(before) + Codes(after)
  {
  }

  /** The (old, new) text pairs handed to the scorer, in report order: one
      per modified row and none for any other row. */
  function ScoredPairs(report: seq<ReportRow>): seq<(string, string)> {
    if report == [] then []
    else
      var init, last := report[..|report| - 1], report[|report| - 1];
      ScoredPairs(init) + if last.status == Modified then [(last.q3Value, last.q4Value)] else []
  }

  /** The scorer calls of two stretches of report are those of the first
      followed by those of the second. */
  lemma {:induction false} ScoredPairsAppend(a: seq<ReportRow>, b: seq<ReportRow>)
    ensures ScoredPairs(a + b) == ScoredPairs(a) + ScoredPairs(b)
  {
    if b == [] {
      assert a + b == a;
    } else {
      var init := b[..|b| - 1];
      assert (a + b)[..|a + b| - 1] == a + init;
      assert (a + b)[|a + b| - 1] == b[|b| - 1];
      ScoredPairsAppend(a, init);
    }
  }

  /** Rows none of which is modified cost no scorer call. */
  lemma {:induction false} ScoredPairsOfUnmodified(rows: seq<ReportRow>)
    requires forall j :: 0 <= j < |rows| ==> rows[j].status != Modified
    ensures ScoredPairs(rows) == []
  {
    if rows != [] {
      ScoredPairsOfUnmodified(rows[..|rows| - 1]);
    }
  }

  /** What `semantic_compare` returns: first the row of every before row, in
      before order; then one new-entry row for each code only the after rows
      have, each such code exactly once, in some order. */
  ghost predicate Reconciled(report: seq<ReportRow>, before: seq<Record>, after: seq<Record>,
                             column: string, bands: Bands, score: Scorer) {
    && |before| <= |report|
    && (forall i :: 0 <= i < |before| ==> report[i] == CompareRow(before[i], Lookup(after), column, bands, score))
    && NewRowsFor(report[|before|..], NewCodes(before, after), after, column)
  }

  /** `semantic_compare`. `calls` logs every call of the scorer, in order;
      the scorer is called once per modified row and never for the others. */
  method Compare(before: seq<Record>, after: seq<Record>, column: string, bands: Bands, score: Scorer)
    returns (report: seq<ReportRow>, calls: seq<(string, string)>)
    ensures Reconciled(report, before, after, column, bands, score)
    ensures calls == ScoredPairs(report)
  {
    var lookup := BuildLookup(after);
    var matched;
    matched, calls := CompareBefore(before, lookup, column, bands, score);
    report := AppendNewRows(matched, before, after, column);
    Assemble(matched, report, before, after, column, bands, score);
  }

  /** The rows of the before rows followed by the new-entry rows make a
      reconciled report, and only the former cost scorer calls. */
  lemma Assemble(matched: seq<ReportRow>, report: seq<ReportRow>, before: seq<Record>, after: seq<Record>,
                 column: string, bands: Bands, score: Scorer)
    requires |matched| == |before|
    requires forall i :: 0 <= i < |before| ==> matched[i] == CompareRow(before[i], Lookup(after), column, bands, score)
    requires |matched| <= |report| && report[..|matched|] == matched
    requires NewRowsFor(report[|matched|..], NewCodes(before, after), after, column)
    ensures Reconciled(report, before, after, column, bands, score)
    ensures ScoredPairs(report) == ScoredPairs(matched)
  {
    assert forall i :: 0 <= i < |before| ==> report[i] == matched[i];
    var tail := report[|before|..];
    assert report == matched + tail;
    ScoredPairsAppend(matched, tail);
    ScoredPairsOfUnmodified(tail);
  }

  /** The dict comprehension `{row["Code"]: row for _, row in q4_df.iterrows()}`. */
  method BuildLookup(after: seq<Record>) returns (lookup: map<string, Record>)
    ensures lookup == Lookup(after)
  {
    lookup := map[];
    for i := 0 to |after|
      invariant lookup == Lookup(after[..i])
    {
      assert after[..i + 1][..i] == after[..i];
      lookup := lookup[after[i].code := after[i]];
    }
    assert after[..|after|] == after;
  }

  /** The loop of `semantic_compare` over the before rows: one row per before
      row, in order, each the one `CompareRow` describes; the scorer is called
      exactly for the rows that come out modified. */
  method CompareBefore(before: seq<Record>, lookup: map<string, Record>, column: string, bands: Bands, score: Scorer)
    returns (report: seq<ReportRow>, calls: seq<(string, string)>)
    ensures |report| == |before|
    ensures forall i :: 0 <= i < |before| ==> report[i] == CompareRow(before[i], lookup, column, bands, score)
    ensures calls == ScoredPairs(report)
  {
    report, calls := [], [];
    for i := 0 to |before|
      invariant |report| == i
      invariant forall j :: 0 <= j < i ==> report[j] == CompareRow(before[j], lookup, column, bands, score)
      invariant calls == ScoredPairs(report)
    {
      var q3Row := before[i];
      var code := q3Row.code;
      if code !in lookup {
        report := report + [ReportRow(code, RemovedInQ4, column, q3Row.text, "", Blank, SevereChange)];
        continue;
      }
      var q4Row := lookup[code];
      var oldText, newText := Strip(q3Row.text), Strip(q4Row.text);
      if oldText == newText {
        report := report + [ReportRow(code, Unchanged, column, oldText, newText, Score(1.0), NoChange)];
        continue;
      }
      var sim := score(oldText, newText);
      calls := calls + [(oldText, newText)];
      report := report + [ReportRow(code, Modified, column, oldText, newText, Score(sim), Classify(bands, sim))];
    }
  }

  /** The codes of report rows, in order. */
  function RowCodes(rows: seq<ReportRow>): (codes: seq<string>)
    ensures |codes| == |rows|
    ensures forall j :: 0 <= j < |rows| ==> codes[j] == rows[j].code
  {
    seq(|rows|, j requires 0 <= j < |rows| => rows[j].code)
  }

  /** `tail` is made of new-entry rows, one for each code of `added` and for
      nothing else: every code of `added` occurs exactly once. */
  ghost predicate NewRowsFor(tail: seq<ReportRow>, added: set<string>, after: seq<Record>, column: string)
    requires added <= Codes(after)
  {
    && multiset(RowCodes(tail)) == multiset(added)
    && forall j :: 0 <= j < |tail| ==> tail[j].code in added && tail[j] == NewRow(tail[j].code, after, column)
  }

  /** Appending the row of one more code keeps `NewRowsFor`. */
  lemma NewRowsForStep(tail: seq<ReportRow>, added: set<string>, after: seq<Record>, column: string, code: string)
    requires added <= Codes(after) && code in Codes(after) && code !in added
    requires NewRowsFor(tail, added, after, column)
    ensures NewRowsFor(tail + [NewRow(code, after, column)], added + {code}, after, column)
  {
    var next := tail + [NewRow(code, after, column)];
    assert RowCodes(next) == RowCodes(tail) + [code];
    assert multiset(added + {code}) == multiset(added) + multiset{code};
  }

  /** The closing loop of `semantic_compare`: one new-entry row appended for
      each code only the after rows have, each exactly once, in the
      unspecified order in which the set of new codes is walked. */
  method AppendNewRows(rows: seq<ReportRow>, before: seq<Record>, after: seq<Record>, column: string)
    returns (report: seq<ReportRow>)
    ensures |rows| <= |report| && report[..|rows|] == rows
    ensures NewRowsFor(report[|rows|..], NewCodes(before, after), after, column)
  {
    var q3Codes, q4Codes := Codes(before), Codes(after);
    var newCodes := q4Codes - q3Codes;
    var tail: seq<ReportRow> := [];
    ghost var added: set<string> := {};
    while newCodes != {}
      invariant added !! newCodes && added + newCodes == NewCodes(before, after)
      invariant NewRowsFor(tail, added, after, column)
      decreases |newCodes|
    {
      var code :| code in newCodes;
      var q4Row := after[FirstIndex(after, code)];
      NewRowsForStep(tail, added, after, column, code);
      tail := tail + [ReportRow(code, NewInQ4, column, "", q4Row.text, Blank, NewEntry)];
      newCodes := newCodes - {code};
      added := added + {code};
    }
    report := rows + tail;
    assert report[..|rows|] == rows && report[|rows|..] == tail;
  }
}
