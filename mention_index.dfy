/**
 * The mention index: for each surface form, the ints of its line after the name, which
 * are the number of documents linking it, the number of documents containing it and then
 * its candidate entities in file order. Forms seen in fewer than five documents are skipped.
 */
module MentionIndexes {
  import opened Wrappers
  import opened JavaLang
  import opened IndexLoading
  import CandidatesIndexes

  type MentionIndex = map<string, seq<int>>

  const MINIMUM_COUNT: int := 5
  const FIELD_SEPARATOR: char := '\t'

  /** Integer.parseInt of each field in order; the first field that does not parse decides the error. */
  function ParseInts(fields: seq<string>): (r: Result<seq<int>>)
    ensures r.Ok? <==> forall i :: 0 <= i < |fields| ==> ParseInt(fields[i]).Ok?
    ensures r.Ok? ==> |r.value| == |fields| && forall i :: 0 <= i < |fields| ==> r.value[i] == ParseInt(fields[i]).value
    ensures r.Err? ==> exists i :: 0 <= i < |fields| && ParseInt(fields[i]) == Err(r.error)
  {
    if |fields| == 0 then Ok([])
    else
      var head :- ParseInt(fields[0]);
      var rest :- ParseInts(fields[1..]);
      Ok([head] + rest)
  }

  /**
   * One line of the file: the tab fields, the document count from the third field, and for
   * a count of at least MINIMUM_COUNT every field after the name parsed as an int.
   */
  function ParseMentionLine(line: string): Result<Option<(string, seq<int>)>>
  {
    var elements := SplitFields(line, FIELD_SEPARATOR);
    if |elements| < 3 then Err(ArrayIndexOutOfBounds)
    else
      var documentsCount :- ParseInt(elements[2]);
      if documentsCount < MINIMUM_COUNT then Ok(None)
      else
        var values :- ParseInts(elements[1..]);
        Ok(Some((elements[0], values)))
  }

  /** load: the lines parsed one by one into the map. */
  method LoadMentionIndex(lines: seq<string>) returns (r: Result<MentionIndex>)
    ensures r == LoadUpTo(ParseMentionLine, lines, |lines|)
  {
    r := Load(ParseMentionLine, lines);
  }

  /** getKeyphraseness: the first two stored ints; a missing name is a null value. */
  function Keyphraseness(index: MentionIndex, key: string): (r: Result<(int, int)>)
    ensures key !in index ==> r == Err(NullPointer)
    ensures r.Ok? <==> key in index && |index[key]| >= 2
  {
    if key !in index then Err(NullPointer)
    else
      var value := index[key];
      if |value| < 2 then Err(ArrayIndexOutOfBounds) else Ok((value[0], value[1]))
  }

  /** getCandidateEntities: Arrays.copyOfRange(value, 2, length), which rejects a range start past the end. */
  function CandidateEntities(index: MentionIndex, key: string): (r: Result<seq<int>>)
    ensures key !in index ==> r == Err(NullPointer)
    ensures r.Ok? <==> key in index && |index[key]| >= 2
  {
    if key !in index then Err(NullPointer)
    else
      var value := index[key];
      if |value| < 2 then Err(IllegalArgument) else Ok(value[2..])
  }

  /** The record a loaded entry stands for: at least two ints, the second one the kept document count. */
  predicate StoredValue(value: seq<int>)
  {
    |value| >= 2 && value[1] >= MINIMUM_COUNT
  }

  /** The view of the index that mention detection reads. */
  function AsCandidatesIndex(index: MentionIndex): (r: CandidatesIndexes.CandidatesIndex)
    requires forall key :: key in index ==> |index[key]| >= 2
    ensures r.Keys == index.Keys
  {
    map key | key in index :: CandidatesIndexes.IndexEntry(index[key][0], index[key][1], index[key][2..])
  }

  // ---------------------------------------------------------------------------
  // Properties.

  /**
   * A line with fewer than three fields throws; a line is skipped exactly when its third
   * field parses to a count below MINIMUM_COUNT; a kept line stores all of its fields after
   * the name, as ints, in order.
   */
  lemma ParseMentionLineMeaning(line: string)
    ensures var elements := SplitFields(line, FIELD_SEPARATOR);
      |elements| < 3 ==> ParseMentionLine(line) == Err(ArrayIndexOutOfBounds)
    ensures var elements := SplitFields(line, FIELD_SEPARATOR);
      ParseMentionLine(line) == Ok(None) <==>
      (|elements| >= 3 && ParseInt(elements[2]).Ok? && ParseInt(elements[2]).value < MINIMUM_COUNT)
    ensures var elements := SplitFields(line, FIELD_SEPARATOR);
      ParseMentionLine(line).Ok? && ParseMentionLine(line).value.Some? ==>
      var (name, value) := ParseMentionLine(line).value.value;
      name == elements[0] && |value| == |elements| - 1 &&
      (forall i :: 1 <= i < |elements| ==> value[i - 1] == ParseInt(elements[i]).value) &&
      StoredValue(value)
  {
    var elements := SplitFields(line, FIELD_SEPARATOR);
    if |elements| >= 3 && ParseMentionLine(line).Ok? && ParseMentionLine(line).value.Some? {
      var value := ParseMentionLine(line).value.value.1;
      assert value == ParseInts(elements[1..]).value;
      assert elements[1..][1] == elements[2];
    }
  }

  /** Every value of a loaded index is a stored record, so the view's document counts are positive. */
  lemma LoadedMentionIndex(lines: seq<string>)
    requires LoadUpTo(ParseMentionLine, lines, |lines|).Ok?
    ensures var index := LoadUpTo(ParseMentionLine, lines, |lines|).value;
      (forall key :: key in index ==> StoredValue(index[key])) &&
      CandidatesIndexes.WellFormed(AsCandidatesIndex(index))
  {
    forall q | 0 <= q < |lines| && ParseMentionLine(lines[q]).Ok? && ParseMentionLine(lines[q]).value.Some?
      ensures StoredValue(ParseMentionLine(lines[q]).value.value.1)
    {
      ParseMentionLineMeaning(lines[q]);
    }
    LoadUpToValues(ParseMentionLine, lines, |lines|, StoredValue);
  }

  /**
   * On a stored record the two getters succeed and split the value: the keyphraseness pair
   * followed by the candidates gives back the whole value.
   */
  lemma GettersSplitValue(index: MentionIndex, key: string)
    requires key in index && StoredValue(index[key])
    ensures Keyphraseness(index, key).Ok? && CandidateEntities(index, key).Ok?
    ensures var (linked, total) := Keyphraseness(index, key).value;
      [linked, total] + CandidateEntities(index, key).value == index[key] && total >= MINIMUM_COUNT
  {
    var value := index[key];
    assert value == [value[0], value[1]] + value[2..];
  }

  /** The file line a stored record comes from: the name then the ints, joined by tabs. */
  function MentionLine(name: string, value: seq<int>): string
  {
    Join([name] + IntTexts(value), [FIELD_SEPARATOR])
  }

  function IntTexts(values: seq<int>): (r: seq<string>)
    ensures |r| == |values|
    ensures forall i :: 0 <= i < |values| ==> r[i] == IntToString(values[i])
  {
    seq(|values|, i requires 0 <= i < |values| => IntToString(values[i]))
  }

  /** A line written from a stored record under a name without tabs parses back to that name and record. */
  lemma ParseMentionLineRoundTrip(name: string, value: seq<int>)
    requires FIELD_SEPARATOR !in name
    requires StoredValue(value) && forall i :: 0 <= i < |value| ==> IsInt32(value[i])
    ensures ParseMentionLine(MentionLine(name, value)) == Ok(Some((name, value)))
  {
    var parts := [name] + IntTexts(value);
    forall i | 0 <= i < |parts|
      ensures FIELD_SEPARATOR !in parts[i]
    {
      if i > 0 {
        IntToStringHasNo(value[i - 1], FIELD_SEPARATOR);
      }
    }
    SplitFieldsJoin(parts, FIELD_SEPARATOR);
    var elements := SplitFields(MentionLine(name, value), FIELD_SEPARATOR);
    assert elements == parts;
    assert elements[1..] == IntTexts(value);
    ParseIntTexts(value);
    ParseIntToString(value[1]);
    assert ParseInt(elements[2]) == Ok(value[1]);
  }

  /** The decimal texts of ints parse back to the ints. */
  lemma ParseIntTexts(values: seq<int>)
    requires forall i :: 0 <= i < |values| ==> IsInt32(values[i])
    ensures ParseInts(IntTexts(values)) == Ok(values)
  {
    forall i | 0 <= i < |values|
      ensures ParseInt(IntTexts(values)[i]) == Ok(values[i])
    {
      ParseIntToString(values[i]);
    }
    var r := ParseInts(IntTexts(values));
    assert r.Ok?;
    assert r.value == values;
  }
}
