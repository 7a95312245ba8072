/**
 * What a reconciled report guarantees: its length, which keys it covers and
 * how often, the status of every row, which after row each value is taken
 * from, the change-record invariant, and that it is determined by its
 * inputs up to the order of the new-entry rows.
 */
module ReconcileFacts {
  import opened Text
  import opened Classification
  import opened Reconcile

  /** The codes of snapshot rows, in order (`q3_df["Code"]`). */
  function RecordCodes(rows: seq<Record>): (codes: seq<string>)
    ensures |codes| == |rows|
    ensures forall i :: 0 <= i < |rows| ==> codes[i] == rows[i].code
  {
    seq(|rows|, i requires 0 <= i < |rows| => rows[i].code)
  }

  /** No two rows share a code. */
  predicate DistinctCodes(rows: seq<Record>) {
    forall i, j :: 0 <= i < j < |rows| ==> rows[i].code != rows[j].code
  }

  /** A sequence with the multiset of a set holds each element of the set
      exactly once and nothing else. */
  lemma {:induction false} SequenceOfSet(s: seq<string>, a: set<string>)
    requires multiset(s) == multiset(a)
    ensures |s| == |a|
    ensures forall x :: x in s <==> x in a
    ensures forall i, j :: 0 <= i < j < |s| ==> s[i] != s[j]
  {
    if s == [] {
      assert a == {};
    } else {
      var init, x := s[..|s| - 1], s[|s| - 1];
      assert s == init + [x];
      var rest := a - {x};
      assert multiset(init) == multiset(rest) by {
        assert multiset(init) == multiset(s) - multiset{x};
        assert multiset(rest) == multiset(a) - multiset{x};
      }
      SequenceOfSet(init, rest);
      assert a == rest + {x};
      forall i, j | 0 <= i < j < |s| ensures s[i] != s[j] {
        assert s[i] == init[i];
      }
    }
  }

  /** The new-entry rows hold each new code exactly once: there are as many
      of them as new codes, every new code has one, and no two share a code. */
  lemma NewRowsDistinct(tail: seq<ReportRow>, added: set<string>, after: seq<Record>, column: string)
    requires added <= Codes(after) && NewRowsFor(tail, added, after, column)
    ensures |tail| == |added|
    ensures forall c :: c in added ==> exists j :: 0 <= j < |tail| && tail[j].code == c
    ensures forall i, j :: 0 <= i < j < |tail| ==> tail[i].code != tail[j].code
  {
    var codes := RowCodes(tail);
    SequenceOfSet(codes, added);
    forall c | c in added ensures exists j :: 0 <= j < |tail| && tail[j].code == c {
      assert c in codes;
      var j :| 0 <= j < |codes| && codes[j] == c;
      assert tail[j].code == c;
    }
  }

  /** The report has one row per before row and one per new code. */
  lemma ReportLength(report: seq<ReportRow>, before: seq<Record>, after: seq<Record>,
                     column: string, bands: Bands, score: Scorer)
    requires Reconciled(report, before, after, column, bands, score)
    ensures |report| == |before| + |NewCodes(before, after)|
  {
    NewRowsDistinct(report[|before|..], NewCodes(before, after), after, column);
  }

  /** Every row's status: a before row is removed exactly when its code is
      missing from the after rows, and is never a new entry; every row after
      them is a new entry for a code only the after rows have, with no Q3
      value and the raw text of the first after row with that code. */
  lemma ReportStatuses(report: seq<ReportRow>, before: seq<Record>, after: seq<Record>,
                       column: string, bands: Bands, score: Scorer)
    requires Reconciled(report, before, after, column, bands, score)
    ensures forall i :: 0 <= i < |before| ==> report[i].code == before[i].code && report[i].status != NewInQ4
    ensures forall i :: 0 <= i < |before| ==> (report[i].status == RemovedInQ4 <==> before[i].code !in Codes(after))
    ensures forall j :: |before| <= j < |report| ==>
              && report[j].status == NewInQ4 && report[j].severity == NewEntry
              && report[j].code in Codes(after) && report[j].code !in Codes(before)
              && report[j].q3Value == "" && report[j].similarity == Blank
              && report[j].q4Value == after[FirstIndex(after, report[j].code)].text
  {
    var tail := report[|before|..];
    forall j | |before| <= j < |report|
      ensures report[j].code in NewCodes(before, after)
      ensures report[j] == NewRow(report[j].code, after, column)
    {
      assert report[j] == tail[j - |before|];
    }
  }

  /** A matched before row compares against the last after row with its
      code, both texts stripped. */
  lemma MatchedUsesLastRow(report: seq<ReportRow>, before: seq<Record>, after: seq<Record>,
                           column: string, bands: Bands, score: Scorer)
    requires Reconciled(report, before, after, column, bands, score)
    ensures forall i :: 0 <= i < |before| && before[i].code in Codes(after) ==>
              && report[i].q3Value == Strip(before[i].text)
              && report[i].q4Value == Strip(after[LastIndex(after, before[i].code)].text)
  {
    forall i | 0 <= i < |before| && before[i].code in Codes(after)
      ensures report[i].q4Value == Strip(after[LastIndex(after, before[i].code)].text)
    {
      LookupIsLastRow(after, before[i].code);
    }
  }

  /** Only before rows can be modified; a modified row carries the scorer's
      verdict on its two stripped texts, which differ, and the severity of
      that verdict's band. */
  lemma ModifiedRows(report: seq<ReportRow>, before: seq<Record>, after: seq<Record>,
                     column: string, bands: Bands, score: Scorer)
    requires Reconciled(report, before, after, column, bands, score)
    ensures forall i :: 0 <= i < |report| && report[i].status == Modified ==>
              && i < |before| && report[i].q3Value != report[i].q4Value
              && report[i].similarity == Score(score(report[i].q3Value, report[i].q4Value))
              && report[i].severity == Classify(bands, report[i].similarity.value)
  {
    ReportStatuses(report, before, after, column, bands, score);
  }

  /** Every row of the report keeps the change-record invariant. */
  lemma ReportWellFormed(report: seq<ReportRow>, before: seq<Record>, after: seq<Record>,
                         column: string, bands: Bands, score: Scorer)
    requires Reconciled(report, before, after, column, bands, score)
    ensures forall i :: 0 <= i < |report| ==> WellFormed(report[i], bands)
  {
    ReportStatuses(report, before, after, column, bands, score);
  }

  /** The codes of snapshot rows hold exactly the snapshot's codes. */
  lemma RecordCodesHoldCodes(rows: seq<Record>)
    ensures forall c :: c in RecordCodes(rows) <==> c in Codes(rows)
  {
    var codes := RecordCodes(rows);
    forall c | c in Codes(rows) ensures c in codes {
      var i :| 0 <= i < |rows| && rows[i].code == c;
      assert codes[i] == c;
    }
  }

  /** Each key once: the report's codes are the before codes, in order,
      followed by every new code exactly once. */
  lemma ReportCodeCounts(report: seq<ReportRow>, before: seq<Record>, after: seq<Record>,
                         column: string, bands: Bands, score: Scorer)
    requires Reconciled(report, before, after, column, bands, score)
    ensures RowCodes(report)[..|before|] == RecordCodes(before)
    ensures multiset(RowCodes(report)) == multiset(RecordCodes(before)) + multiset(NewCodes(before, after))
  {
    var codes, tail := RowCodes(report), report[|before|..];
    assert codes == codes[..|before|] + RowCodes(tail);
    assert codes[..|before|] == RecordCodes(before);
  }

  /** Coverage: the report's codes are exactly the codes of the two snapshots. */
  lemma ReportCoverage(report: seq<ReportRow>, before: seq<Record>, after: seq<Record>,
                       column: string, bands: Bands, score: Scorer)
    requires Reconciled(report, before, after, column, bands, score)
    ensures forall c :: c in RowCodes(report) <==> c in Codes(before) + Codes(after)
  {
    ReportCodeCounts(report, before, after, column, bands, score);
    RecordCodesHoldCodes(before);
    var m := multiset(RowCodes(report));
    forall c ensures c in RowCodes(report) <==> c in Codes(before) + Codes(after) {
      assert c in RowCodes(report) <==> c in m;
      assert c in m <==> c in multiset(RecordCodes(before)) || c in multiset(NewCodes(before, after));
    }
  }

  /** When the before rows carry distinct codes, every key of either snapshot
      appears in exactly one row of the report. */
  lemma ReportExactlyOnce(report: seq<ReportRow>, before: seq<Record>, after: seq<Record>,
                          column: string, bands: Bands, score: Scorer)
    requires Reconciled(report, before, after, column, bands, score)
    requires DistinctCodes(before)
    ensures forall i, j :: 0 <= i < j < |report| ==> report[i].code != report[j].code
    ensures multiset(RowCodes(report)) == multiset(Codes(before) + Codes(after))
  {
    ReportStatuses(report, before, after, column, bands, score);
    ReportCoverage(report, before, after, column, bands, score);
    var tail := report[|before|..];
    NewRowsDistinct(tail, NewCodes(before, after), after, column);
    forall i, j | 0 <= i < j < |report| ensures report[i].code != report[j].code {
      if |before| <= i {
        assert report[i] == tail[i - |before|] && report[j] == tail[j - |before|];
      } else if j < |before| {
      } else {
        assert report[i].code in Codes(before);
      }
    }
    DistinctMultiset(RowCodes(report), Codes(before) + Codes(after));
  }

  /** A sequence without repetitions whose elements are those of a set has
      the multiset of that set. */
  lemma {:induction false} DistinctMultiset(s: seq<string>, a: set<string>)
    requires forall i, j :: 0 <= i < j < |s| ==> s[i] != s[j]
    requires forall x :: x in s <==> x in a
    ensures multiset(s) == multiset(a)
  {
    if s == [] {
      assert a == {};
    } else {
      var init, x := s[..|s| - 1], s[|s| - 1];
      assert s == init + [x];
      var rest := a - {x};
      forall y ensures y in init <==> y in rest {
        if y in init {
          var k :| 0 <= k < |init| && init[k] == y;
          assert s[k] == y;
        }
        if y in rest {
          assert y in s;
          var k :| 0 <= k < |s| && s[k] == y;
          assert k < |init|;
          assert init[k] == y;
        }
      }
      DistinctMultiset(init, rest);
      assert a == rest + {x};
      assert multiset(a) == multiset(rest) + multiset{x};
    }
  }

  /** Reconciliation is determined by its inputs: two reports for the same
      snapshots, column, bands and scorer agree row for row on the before
      rows, and hold the same new-entry rows (in possibly different orders). */
  lemma ReportDeterministic(r1: seq<ReportRow>, r2: seq<ReportRow>, before: seq<Record>, after: seq<Record>,
                            column: string, bands: Bands, score: Scorer)
    requires Reconciled(r1, before, after, column, bands, score)
    requires Reconciled(r2, before, after, column, bands, score)
    ensures |r1| == |r2|
    ensures r1[..|before|] == r2[..|before|]
    ensures forall row :: row in r1[|before|..] <==> row in r2[|before|..]
  {
    ReportLength(r1, before, after, column, bands, score);
    ReportLength(r2, before, after, column, bands, score);
    NewRowsSameRows(r1[|before|..], r2[|before|..], NewCodes(before, after), after, column);
  }

  /** Two runs of new-entry rows for the same codes hold the same rows. */
  lemma NewRowsSameRows(t1: seq<ReportRow>, t2: seq<ReportRow>, added: set<string>, after: seq<Record>, column: string)
    requires added <= Codes(after)
    requires NewRowsFor(t1, added, after, column) && NewRowsFor(t2, added, after, column)
    ensures forall row :: row in t1 <==> row in t2
  {
    NewRowsDistinct(t1, added, after, column);
    NewRowsDistinct(t2, added, after, column);
    forall row | row in t1 ensures row in t2 {
      var m :| 0 <= m < |t2| && t2[m].code == row.code;
    }
    forall row | row in t2 ensures row in t1 {
      var m :| 0 <= m < |t1| && t1[m].code == row.code;
    }
  }

  /** The scorer is never called on two equal texts: every scored pair is the
      (Q3, Q4) values of a modified row, which differ. */
  lemma {:induction false} ScoredPairsDiffer(rows: seq<ReportRow>, bands: Bands)
    requires forall i :: 0 <= i < |rows| ==> WellFormed(rows[i], bands)
    ensures forall k :: 0 <= k < |ScoredPairs(rows)| ==> ScoredPairs(rows)[k].0 != ScoredPairs(rows)[k].1
  {
    if rows != [] {
      ScoredPairsDiffer(rows[..|rows| - 1], bands);
    }
  }
}
