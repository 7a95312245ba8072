/**
 * The embedding backend of code_analysis.py: each text is turned into a
 * vector by an external embedding provider and two vectors are compared by
 * their cosine; the report's severity bands are 0.55 and 0.80.
 */
module CodeAnalysis {
  import opened Text
  import opened Classification
  import opened Reconcile
  import opened ReconcileFacts

  /** The thresholds of the embedding backend. */
  const EmbeddingBands := Bands(0.55, 0.80)

  /** The three bands of the embedding backend and their boundaries: just
      below 0.55 is severe, 0.55 itself moderate, just below 0.80 moderate, and
      0.80 itself a minor wording change. */
  lemma EmbeddingBandBoundaries(sim: real)
    ensures Classify(EmbeddingBands, sim) == SevereChange <==> sim < 0.55
    ensures Classify(EmbeddingBands, sim) == ModerateChange <==> 0.55 <= sim < 0.80
    ensures Classify(EmbeddingBands, sim) == MinorWordingChange <==> 0.80 <= sim
    ensures Classify(EmbeddingBands, 0.54999) == SevereChange && Classify(EmbeddingBands, 0.55) == ModerateChange
    ensures Classify(EmbeddingBands, 0.79999) == ModerateChange && Classify(EmbeddingBands, 0.80) == MinorWordingChange
  {
  }

  /** The text `embed` sends to the provider: a blank text is replaced by
      the word "empty", so the provider is never asked to embed a blank. */
  function EmbedInput(text: string): (r: string)
    ensures Strip(text) == [] ==> r == "empty"
    ensures Strip(text) != [] ==> r == text
    ensures Strip(r) != []
  {
    if Strip(text) == [] then
      StripOfStripped("empty");
      "empty"
    else text
  }

  /** The embedding scorer: the cosine of the provider's vectors for the two
      texts as `embed` prepares them. The provider and the cosine are
      parameters. The score depends on each text only through what is sent
      to the provider. */
  function EmbeddingScore(embed: string -> seq<real>, cosine: (seq<real>, seq<real>) -> real): (r: Scorer)
    ensures forall a, b :: r(a, b) == r(EmbedInput(a), EmbedInput(b))
  {
    EmbedInputIdempotent();
    (a: string, b: string) => cosine(embed(EmbedInput(a)), embed(EmbedInput(b)))
  }

  /** Preparing a text twice is preparing it once. */
  lemma EmbedInputIdempotent()
    ensures forall text :: EmbedInput(EmbedInput(text)) == EmbedInput(text)
  {
  }

  /** A blank text scores exactly as the word "empty" does, on either side. */
  lemma BlankScoresAsEmpty(embed: string -> seq<real>, cosine: (seq<real>, seq<real>) -> real, a: string, b: string)
    requires Strip(a) == []
    ensures EmbeddingScore(embed, cosine)(a, b) == EmbeddingScore(embed, cosine)("empty", b)
    ensures EmbeddingScore(embed, cosine)(b, a) == EmbeddingScore(embed, cosine)(b, "empty")
  {
    assert EmbedInput("empty") == "empty" == EmbedInput(a);
  }

  /** `semantic_compare` with the embedding backend. Besides what every
      reconciliation guarantees, a modified row is severe below 0.55, moderate
      from 0.55 up to 0.80 and a minor wording change from 0.80 on, its score
      being the cosine of the two stripped texts' embeddings. */
  method SemanticCompare(before: seq<Record>, after: seq<Record>, column: string,
                         embed: string -> seq<real>, cosine: (seq<real>, seq<real>) -> real)
    returns (report: seq<ReportRow>, calls: seq<(string, string)>)
    ensures Reconciled(report, before, after, column, EmbeddingBands, EmbeddingScore(embed, cosine))
    ensures calls == ScoredPairs(report)
    ensures forall i :: 0 <= i < |report| && report[i].status == Modified ==>
              && report[i].similarity == Score(cosine(embed(EmbedInput(report[i].q3Value)), embed(EmbedInput(report[i].q4Value))))
              && (report[i].severity == SevereChange <==> report[i].similarity.value < 0.55)
              && (report[i].severity == ModerateChange <==> 0.55 <= report[i].similarity.value < 0.80)
              && (report[i].severity == MinorWordingChange <==> 0.80 <= report[i].similarity.value)
  {
    report, calls := Compare(before, after, column, EmbeddingBands, EmbeddingScore(embed, cosine));
    ModifiedRows(report, before, after, column, EmbeddingBands, EmbeddingScore(embed, cosine));
  }
}
