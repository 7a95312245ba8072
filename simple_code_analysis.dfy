/**
 * The lexical backend of simple_code_analysis.py: two texts are compared by
 * a matching-subsequence ratio, two empty texts scoring 1.0; the report's
 * severity bands are 0.4 and 0.75. Its comparison loop sets the status,
 * similarity and severity in branches and appends one row at the end.
 */
module SimpleCodeAnalysis {
  import opened Text
  import opened Classification
  import opened Reconcile
  import opened ReconcileFacts

  /** The thresholds of the lexical backend. */
  const LexicalBands := Bands(0.4, 0.75)

  /** The three bands of the lexical backend and their boundaries. */
  lemma LexicalBandBoundaries(sim: real)
    ensures Classify(LexicalBands, sim) == SevereChange <==> sim < 0.4
    ensures Classify(LexicalBands, sim) == ModerateChange <==> 0.4 <= sim < 0.75
    ensures Classify(LexicalBands, sim) == MinorWordingChange <==> 0.75 <= sim
    ensures Classify(LexicalBands, 0.39999) == SevereChange && Classify(LexicalBands, 0.4) == ModerateChange
    ensures Classify(LexicalBands, 0.74999) == ModerateChange && Classify(LexicalBands, 0.75) == MinorWordingChange
  {
  }

  /** `text_similarity`: 1.0 when both texts are empty, otherwise the
      matching-subsequence ratio, which is a parameter. */
  function TextSimilarity(ratio: Scorer, a: string, b: string): (r: real)
    ensures a == [] && b == [] ==> r == 1.0
  {
    if a == [] && b == [] then 1.0 else ratio(a, b)
  }

  /** Two texts that differ are never both empty, so on them
      `text_similarity` is the ratio itself. */
  lemma TextSimilarityOfDistinct(ratio: Scorer, a: string, b: string)
    requires a != b
    ensures TextSimilarity(ratio, a, b) == ratio(a, b)
  {
  }

  /** `text_similarity` as the engine's scorer: two empty texts score 1.0,
      and two texts that differ score their ratio. */
  function LexicalScore(ratio: Scorer): (r: Scorer)
    ensures r([], []) == 1.0
    ensures forall a, b :: a != b ==> r(a, b) == ratio(a, b)
  {
    (a: string, b: string) => TextSimilarity(ratio, a, b)
  }

  /** `semantic_compare` with the lexical backend. Besides what every
      reconciliation guarantees, a modified row's similarity is the ratio of
      its two stripped texts (the empty-texts case never reaches the scorer),
      and its severity is severe below 0.4, moderate from 0.4 up to 0.75 and a
      minor wording change from 0.75 on. */
  method SemanticCompare(before: seq<Record>, after: seq<Record>, column: string, ratio: Scorer)
    returns (report: seq<ReportRow>, calls: seq<(string, string)>)
    ensures Reconciled(report, before, after, column, LexicalBands, LexicalScore(ratio))
    ensures calls == ScoredPairs(report)
    ensures forall i :: 0 <= i < |report| && report[i].status == Modified ==>
              && report[i].similarity == Score(ratio(report[i].q3Value, report[i].q4Value))
              && (report[i].severity == SevereChange <==> report[i].similarity.value < 0.4)
              && (report[i].severity == ModerateChange <==> 0.4 <= report[i].similarity.value < 0.75)
              && (report[i].severity == MinorWordingChange <==> 0.75 <= report[i].similarity.value)
  {
    var lookup := BuildLookup(after);
    var matched;
    matched, calls := CompareBefore(before, lookup, column, ratio);
    report := AppendNewRows(matched, before, after, column);
    Assemble(matched, report, before, after, column, LexicalBands, LexicalScore(ratio));
    LexicalModifiedRows(report, before, after, column, ratio);
  }

  /** In a report of the lexical backend, a modified row's similarity is
      the plain ratio of its two texts, and its severity the lexical band
      of that ratio. */
  lemma LexicalModifiedRows(report: seq<ReportRow>, before: seq<Record>, after: seq<Record>, column: string, ratio: Scorer)
    requires Reconciled(report, before, after, column, LexicalBands, LexicalScore(ratio))
    ensures forall i :: 0 <= i < |report| && report[i].status == Modified ==>
              && report[i].similarity == Score(ratio(report[i].q3Value, report[i].q4Value))
              && (report[i].severity == SevereChange <==> report[i].similarity.value < 0.4)
              && (report[i].severity == ModerateChange <==> 0.4 <= report[i].similarity.value < 0.75)
              && (report[i].severity == MinorWordingChange <==> 0.75 <= report[i].similarity.value)
  {
    ModifiedRows(report, before, after, column, LexicalBands, LexicalScore(ratio));
    forall i | 0 <= i < |report| && report[i].status == Modified
      ensures report[i].similarity == Score(ratio(report[i].q3Value, report[i].q4Value))
    {
      TextSimilarityOfDistinct(ratio, report[i].q3Value, report[i].q4Value);
    }
  }

  /** The loop over the before rows as simple_code_analysis.py writes it: a
      missing code appends a removed row and moves on; otherwise the status,
      similarity and severity are chosen in two branches and one row is
      appended. The rows are those `CompareRow` describes for the lexical
      scorer, and the ratio is asked once per modified row. */
  method CompareBefore(before: seq<Record>, lookup: map<string, Record>, column: string, ratio: Scorer)
    returns (report: seq<ReportRow>, calls: seq<(string, string)>)
    ensures |report| == |before|
    ensures forall i :: 0 <= i < |before| ==>
              report[i] == CompareRow(before[i], lookup, column, LexicalBands, LexicalScore(ratio))
    ensures calls == ScoredPairs(report)
  {
    report, calls := [], [];
    for i := 0 to |before|
      invariant |report| == i
      invariant forall j :: 0 <= j < i ==>
                  report[j] == CompareRow(before[j], lookup, column, LexicalBands, LexicalScore(ratio))
      invariant calls == ScoredPairs(report)
    {
      var q3Row := before[i];
      var code := q3Row.code;
      if code !in lookup {
        report := report + [ReportRow(code, RemovedInQ4, column, q3Row.text, "", Blank, SevereChange)];
        continue;
      }
      var q4Row := lookup[code];
      var oldText, newText := Strip(q3Row.text), Strip(q4Row.text);
      var similarity, severity, status;
      if oldText == newText {
        similarity, severity, status := 1.0, NoChange, Unchanged;
      } else {
        similarity := TextSimilarity(ratio, oldText, newText);
        calls := calls + [(oldText, newText)];
        if similarity < 0.4 {
          severity := SevereChange;
        } else if similarity < 0.75 {
          severity := ModerateChange;
        } else {
          severity := MinorWordingChange;
        }
        status := Modified;
      }
      report := report + [ReportRow(code, status, column, oldText, newText, Score(similarity), severity)];
    }
  }
}
