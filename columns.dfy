/**
 * Column handling: cleaning a sheet's header names and finding a column
 * from a list of acceptable aliases (`normalize_columns` and `find_column`,
 * identical in code_analysis.py and simple_code_analysis.py).
 */
module Columns {
  import opened Text

  /** One header name as `normalize_columns` leaves it: stripped, then every
      line feed and every carriage return turned into a space, every other
      character kept where it is. The result holds no line break and no
      surrounding whitespace. */
  function NormalizeName(name: string): (r: string)
    ensures |r| == |Strip(name)|
    ensures forall i :: 0 <= i < |r| ==>
              r[i] == if Strip(name)[i] == '\n' || Strip(name)[i] == '\r' then ' ' else Strip(name)[i]
    ensures '\n' !in r && '\r' !in r
    ensures Strip(r) == r
  {
    var t := Strip(name);
    var r := ReplaceChar(ReplaceChar(t, '\n', ' '), '\r', ' ');
    assert r != [] ==> r[0] == t[0] && r[|r| - 1] == t[|t| - 1];
    StripOfStripped(r);
    r
  }

  /** Normalizing an already normalized name changes nothing. */
  lemma NormalizeNameIdempotent(name: string)
    ensures NormalizeName(NormalizeName(name)) == NormalizeName(name)
  {
    var r := NormalizeName(name);
    assert ReplaceChar(r, '\n', ' ') == r;
    assert ReplaceChar(ReplaceChar(r, '\n', ' '), '\r', ' ') == r;
  }

  /** The header row of a data frame; `normalize_columns` reassigns it in place. */
  class Sheet {
    var columns: seq<string>

    constructor (columns: seq<string>)
      ensures this.columns == columns
    {
      this.columns := columns;
    }

    /** Every header name is normalized; their number and order are kept. */
    method NormalizeColumns()
      modifies this
      ensures |columns| == |old(columns)|
      ensures forall i :: 0 <= i < |columns| ==> columns[i] == NormalizeName(old(columns)[i])
      ensures forall i :: 0 <= i < |columns| ==> '\n' !in columns[i] && '\r' !in columns[i]
    {
      var names := columns;
      columns := seq(|names|, i requires 0 <= i < |names| => NormalizeName(names[i]));
    }
  }

  /** The aliases lower-cased, as `find_column` compares them (they are not stripped). */
  function LowerAll(names: seq<string>): (r: seq<string>)
    ensures |r| == |names|
    ensures forall i {:trigger r[i]} :: 0 <= i < |names| ==> r[i] == Lower(names[i])
  {
    seq(|names|, i requires 0 <= i < |names| => Lower(names[i]))
  }

  /** A column answers to the aliases when its lower-cased, stripped name
      equals one of the lower-cased aliases. */
  predicate Matches(column: string, possibleNames: seq<string>) {
    Strip(Lower(column)) in LowerAll(possibleNames)
  }

  /** The case-insensitive comparison: a column matches exactly when its
      lower-cased form does. */
  lemma MatchesIgnoresCase(column: string, possibleNames: seq<string>)
    ensures Matches(Lower(column), possibleNames) == Matches(column, possibleNames)
  {
    assert Lower(Lower(column)) == Lower(column);
  }

  /** The outcome of `find_column`: the column found, or the `KeyError`
      naming the aliases tried. */
  datatype FindResult = Found(column: string) | KeyError(possibleNames: seq<string>)

  /** `find_column`: the first column, in column order, that answers to one
      of the aliases; a `KeyError` with the aliases when none does. */
  method FindColumn(columns: seq<string>, possibleNames: seq<string>) returns (r: FindResult)
    ensures r.Found? <==> exists k :: 0 <= k < |columns| && Matches(columns[k], possibleNames)
    ensures r.Found? ==> exists k :: 0 <= k < |columns| && columns[k] == r.column && Matches(columns[k], possibleNames)
                                     && forall j :: 0 <= j < k ==> !Matches(columns[j], possibleNames)
    ensures r.KeyError? ==> r.possibleNames == possibleNames
  {
    for i := 0 to |columns|
      invariant forall j :: 0 <= j < i ==> !Matches(columns[j], possibleNames)
    {
      if Matches(columns[i], possibleNames) {
        return Found(columns[i]);
      }
    }
    return KeyError(possibleNames);
  }
}
