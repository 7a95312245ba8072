/**
 * The status and severity taxonomy of a change report, and the mapping
 * from a similarity score to a severity through two thresholds.
 */
module Classification {

  /** The `Status` column of a report row. */
  datatype Status = Unchanged | Modified | NewInQ4 | RemovedInQ4

  /** The `Severity` column of a report row. */
  datatype Severity = NoChange | MinorWordingChange | ModerateChange | SevereChange | NewEntry

  /** The text written in the `Status` column. */
  function StatusLabel(s: Status): string {
    match s
    case Unchanged => "No Change"
    case Modified => "Modified"
    case NewInQ4 => "New in Q4"
    case RemovedInQ4 => "Removed in Q4"
  }

  /** The text written in the `Severity` column. */
  function SeverityLabel(s: Severity): string {
    match s
    case NoChange => "No Change"
    case MinorWordingChange => "Minor Wording Change"
    case ModerateChange => "Moderate Change"
    case SevereChange => "Severe Change"
    case NewEntry => "New Entry"
  }

  /** Distinct statuses are written differently. */
  lemma StatusLabelInjective(s: Status, t: Status)
    ensures StatusLabel(s) == StatusLabel(t) <==> s == t
  {
  }

  /** Distinct severities are written differently. */
  lemma SeverityLabelInjective(s: Severity, t: Severity)
    ensures SeverityLabel(s) == SeverityLabel(t) <==> s == t
  {
  }

  /** The two thresholds of a scoring backend: a score below `severeBelow` is a
      severe change, one below `moderateBelow` a moderate one. */
  datatype Bands = Bands(severeBelow: real, moderateBelow: real)

  /** The severity of a modified record with similarity `sim`. Exactly one of
      the three bands holds, and each is the interval the thresholds cut out. */
  function Classify(bands: Bands, sim: real): (sev: Severity)
    ensures sev == SevereChange || sev == ModerateChange || sev == MinorWordingChange
    ensures sev == SevereChange <==> sim < bands.severeBelow
    ensures sev == ModerateChange <==> bands.severeBelow <= sim < bands.moderateBelow
    ensures sev == MinorWordingChange <==> bands.severeBelow <= sim && bands.moderateBelow <= sim
  {
    if sim < bands.severeBelow then SevereChange
    else if sim < bands.moderateBelow then ModerateChange
    else MinorWordingChange
  }

  /** How much a severity weighs: 0 for no change up to 3 for a severe
      change. A new entry has no band; it is given 4, above all of them. */
  function Impact(sev: Severity): nat {
    match sev
    case NoChange => 0
    case MinorWordingChange => 1
    case ModerateChange => 2
    case SevereChange => 3
    case NewEntry => 4
  }

  /** The bands are monotone: a higher similarity never gets a heavier severity. */
  lemma ClassifyMonotone(bands: Bands, lo: real, hi: real)
    requires lo <= hi
    ensures Impact(Classify(bands, hi)) <= Impact(Classify(bands, lo))
  {
  }
}
