/**
 * Document frequencies of terms. A term's frequency is read with add-one smoothing, so a
 * term that was never seen counts as one document, and its inverse document frequency is
 * exactly zero when the smoothed count equals the size of the collection.
 */
module TermDocumentFrequencyIndexes {
  import opened Wrappers
  import opened JavaLang
  import opened IndexLoading
  import opened WikiUtils

  type TermIndex = map<string, int>

  const FIELD_SEPARATOR: char := '\t'

  /** One line of the file: at most three tab fields, the trimmed term and the trimmed count. */
  function ParseTermLine(line: string): Result<Option<(string, int)>>
  {
    var elements := SplitAtMost(line, FIELD_SEPARATOR, 3);
    if |elements| < 2 then Err(ArrayIndexOutOfBounds)
    else
      var frequency :- ParseInt(Trim(elements[1]));
      Ok(Some((Trim(elements[0]), frequency)))
  }

  /** load: every line is kept, so the file is parsed line by line into the map. */
  method LoadTermIndex(lines: seq<string>) returns (r: Result<TermIndex>)
    ensures r == LoadUpTo(ParseTermLine, lines, |lines|)
  {
    r := Load(ParseTermLine, lines);
  }

  /**
   * get, with add-one smoothing: a missing term counts 1 and a stored count below the int
   * maximum counts one more; the largest int wraps to the smallest.
   */
  function Get(index: TermIndex, term: string): (r: int)
    ensures term !in index ==> r == 1
    ensures term in index && INT_MIN <= index[term] < INT_MAX ==> r == index[term] + 1
    ensures term in index && index[term] == INT_MAX ==> r == INT_MIN
    ensures term in index && 0 <= index[term] < INT_MAX ==> r >= 1
  {
    if term in index then Wrap32(index[term] + 1) else 1
  }

  /**
   * getIDF. `log10Ratio(df)` stands for Math.log10((double) WIKIPEDIA_DF_SIZE / df), which
   * is applied whenever the smoothed count is not the collection size. The result is exactly
   * 0.0 for a stored count one below the collection size, and a missing term is read as one
   * document.
   */
  function IDF(index: TermIndex, term: string, log10Ratio: int -> real): (r: real)
    ensures term in index && index[term] == WIKIPEDIA_DF_SIZE - 1 ==> r == 0.0
    ensures term !in index ==> r == log10Ratio(1)
  {
    var df := Get(index, term);
    if df == WIKIPEDIA_DF_SIZE then 0.0 else log10Ratio(df)
  }

  // ---------------------------------------------------------------------------
  // Properties.

  /**
   * A line without a tab throws; otherwise the line is kept under its trimmed term, and the
   * term with a count written after a tab reads back as that count.
   */
  lemma ParseTermLineMeaning(line: string)
    ensures FIELD_SEPARATOR !in line ==> ParseTermLine(line) == Err(ArrayIndexOutOfBounds)
    ensures ParseTermLine(line).Ok? ==> ParseTermLine(line).value.Some?
    ensures ParseTermLine(line).Ok? ==> Trimmed(ParseTermLine(line).value.value.0)
  {
    var elements := SplitAtMost(line, FIELD_SEPARATOR, 3);
    if FIELD_SEPARATOR !in line {
      assert IndexOfChar(line, FIELD_SEPARATOR) == -1;
      assert elements == [line];
    }
    if ParseTermLine(line).Ok? {
      assert ParseTermLine(line).value.value.0 == Trim(elements[0]);
    }
  }

  /** A term that is already trimmed, a tab and an int's decimal text parse back to the pair. */
  lemma ParseTermLineRoundTrip(term: string, frequency: int)
    requires FIELD_SEPARATOR !in term && Trim(term) == term
    requires IsInt32(frequency)
    ensures ParseTermLine(term + [FIELD_SEPARATOR] + IntToString(frequency)) == Ok(Some((term, frequency)))
  {
    var text := IntToString(frequency);
    var line := term + [FIELD_SEPARATOR] + text;
    IndexOfCharAfter(term, FIELD_SEPARATOR, text);
    assert line[..|term|] == term;
    assert line[|term| + 1..] == text;
    IntToStringHasNo(frequency, FIELD_SEPARATOR);
    assert SplitAtMost(text, FIELD_SEPARATOR, 2) == [text];
    assert SplitAtMost(line, FIELD_SEPARATOR, 3) == [term, text];
    IntTextTrimmed(frequency);
    ParseIntToString(frequency);
  }

  /** The decimal text of an int starts and ends with a character above ' ', so trim keeps it. */
  lemma IntTextTrimmed(n: int)
    ensures Trim(IntToString(n)) == IntToString(n)
  {
    IntTextShape(n);
    TrimTrimmed(IntToString(n));
  }

  /** The decimal text is never empty and holds no character at or below ' '. */
  lemma IntTextShape(n: int)
    ensures |IntToString(n)| > 0
    ensures forall i :: 0 <= i < |IntToString(n)| ==> IntToString(n)[i] > ' '
  {
    var s := IntToString(n);
    if n < 0 {
      assert s == "-" + NatToString(-n);
      assert forall i :: 1 <= i < |s| ==> s[i] == NatToString(-n)[i - 1];
    }
  }

  /** A loaded index holds ints only, and the last line naming a term decides its count. */
  lemma LoadedTermIndex(lines: seq<string>, q: nat, term: string)
    requires q < |lines| && LoadUpTo(ParseTermLine, lines, |lines|).Ok?
    requires KeptAt(ParseTermLine, lines, q, term)
    requires forall p :: q < p < |lines| ==> !KeptAt(ParseTermLine, lines, p, term)
    ensures var index := LoadUpTo(ParseTermLine, lines, |lines|).value;
      term in index && index[term] == ParseTermLine(lines[q]).value.value.1 && IsInt32(index[term])
  {
    LoadUpToLastWins(ParseTermLine, lines, |lines|, q, term);
  }

  /** Every term of a loaded index is trimmed, as load trims the term field of each line. */
  lemma LoadedTermsTrimmed(lines: seq<string>, term: string)
    requires LoadUpTo(ParseTermLine, lines, |lines|).Ok?
    requires term in LoadUpTo(ParseTermLine, lines, |lines|).value
    ensures Trimmed(term)
  {
    LoadUpToKeys(ParseTermLine, lines, |lines|, term);
    var q :| 0 <= q < |lines| && KeptAt(ParseTermLine, lines, q, term);
    ParseTermLineMeaning(lines[q]);
  }
}
