/**
 * The name index: for each surface form, the number of documents where it is linked, the
 * number of documents where it occurs, and its candidate record (name frequency and the
 * candidate entities with their link counts). Forms occurring in fewer than five documents,
 * or never linked, are skipped when the file is loaded.
 */
module MentionEntitiesFrequencyIndexes {
  import opened Wrappers
  import opened JavaLang
  import opened OrderedMaps
  import opened IndexLoading
  import opened CandidatesEntries
  import opened EntityLinksEntries
  import CandidatesIndexes

  /** A NameEntry with its candidate record held by value. */
  datatype NameEntry = NameEntry(linkedDocs: int, totalDocs: int, nameFrequency: int, candidates: OrderedMap<int, int>)

  type NameIndex = map<string, NameEntry>

  const MINIMUM_COUNT: int := 5
  const SEPARATOR: char := '\t'

  /**
   * One line of the file: at most four tab fields, the name, the linked and total document
   * counts, then the candidate record's text. Fields are read in that order, so a missing or
   * malformed field throws where the load reaches it.
   */
  function ParseNameLine(line: string): Result<Option<(string, NameEntry)>>
  {
    var elements := SplitAtMost(line, SEPARATOR, 4);
    if |elements| < 2 then Err(ArrayIndexOutOfBounds)
    else
      var linkedDocs :- ParseInt(elements[1]);
      if |elements| < 3 then Err(ArrayIndexOutOfBounds)
      else
        var totalDocs :- ParseInt(elements[2]);
        if totalDocs < MINIMUM_COUNT || linkedDocs == 0 then Ok(None)
        else if |elements| < 4 then Err(ArrayIndexOutOfBounds)
        else
          var candidates :- ParseCandidatesEntry(elements[3]);
          Ok(Some((elements[0], NameEntry(linkedDocs, totalDocs, candidates.0, candidates.1))))
  }

  /** load: the lines parsed one by one into the map. */
  method LoadNameIndex(lines: seq<string>) returns (r: Result<NameIndex>)
    ensures r == LoadUpTo(ParseNameLine, lines, |lines|)
  {
    r := Load(ParseNameLine, lines);
  }

  /** What every loaded entry satisfies: it passed the filter and its candidate map is well formed. */
  ghost predicate Kept(entry: NameEntry)
  {
    entry.totalDocs >= MINIMUM_COUNT && entry.linkedDocs != 0 && entry.candidates.Valid()
  }

  // ---------------------------------------------------------------------------
  // Getters; a missing name is a null entry.

  /** getKeyphraseness: the entry's (linkedDocs, totalDocs). */
  function Keyphraseness(index: NameIndex, name: string): (r: Result<(int, int)>)
    ensures r.Ok? <==> name in index
    ensures r.Err? ==> r.error == NullPointer
    ensures r.Ok? ==> r.value.0 == index[name].linkedDocs && r.value.1 == index[name].totalDocs
  {
    if name !in index then Err(NullPointer) else Ok((index[name].linkedDocs, index[name].totalDocs))
  }

  /** getCandidateEntities: the candidate key set as an array, in iteration order, each entity once. */
  function CandidateEntities(index: NameIndex, name: string): (r: Result<seq<int>>)
    ensures r.Ok? <==> name in index
    ensures r.Err? ==> r.error == NullPointer
    ensures r.Ok? && index[name].candidates.Valid() ==>
      (forall e :: e in r.value <==> e in index[name].candidates.values) &&
      (forall i, j :: 0 <= i < j < |r.value| ==> r.value[i] != r.value[j])
  {
    if name !in index then Err(NullPointer) else Ok(index[name].candidates.keys)
  }

  /** getCandidateEntitiesCount: the number of distinct candidates. */
  function CandidateEntitiesCount(index: NameIndex, name: string): (r: Result<int>)
    ensures r.Ok? <==> name in index
    ensures r.Err? ==> r.error == NullPointer
    ensures r.Ok? && index[name].candidates.Valid() ==> r.value == |index[name].candidates.values.Keys|
  {
    if name !in index then Err(NullPointer)
    else
      ValidKeysCount(index[name].candidates);
      Ok(|index[name].candidates.keys|)
  }

  /** getCandidateFrequency: the candidate's link count; an entity that is not a candidate is a null Integer unboxed. */
  function CandidateFrequency(index: NameIndex, name: string, candidate: int): (r: Result<int>)
    ensures r.Ok? <==> name in index && candidate in index[name].candidates.values
    ensures r.Err? ==> r.error == NullPointer
    ensures r.Ok? ==> r.value == index[name].candidates.values[candidate]
  {
    if name !in index then Err(NullPointer)
    else if candidate !in index[name].candidates.values then Err(NullPointer)
    else Ok(index[name].candidates.values[candidate])
  }

  /** getMostFrequentEntity: the candidate record's most frequent entity. */
  function MostFrequentEntity(index: NameIndex, name: string): Result<int>
  {
    if name !in index then Err(NullPointer) else Ok(MostFrequent(index[name].candidates))
  }

  /** The view of the index that mention detection reads: the counts and the candidate entities. */
  function AsCandidatesIndex(index: NameIndex): (r: CandidatesIndexes.CandidatesIndex)
    ensures r.Keys == index.Keys
  {
    map name | name in index ::
      CandidatesIndexes.IndexEntry(index[name].linkedDocs, index[name].totalDocs, index[name].candidates.keys)
  }

  // ---------------------------------------------------------------------------
  // Properties.

  /**
   * A line with a single field throws, and a line is skipped exactly when both counts parse
   * and the total is below MINIMUM_COUNT or the name is never linked.
   */
  lemma ParseNameLineSkips(line: string)
    ensures var elements := SplitAtMost(line, SEPARATOR, 4);
      |elements| < 2 ==> ParseNameLine(line) == Err(ArrayIndexOutOfBounds)
    ensures var elements := SplitAtMost(line, SEPARATOR, 4);
      ParseNameLine(line) == Ok(None) <==>
      (|elements| >= 3 && ParseInt(elements[1]).Ok? && ParseInt(elements[2]).Ok? &&
       (ParseInt(elements[2]).value < MINIMUM_COUNT || ParseInt(elements[1]).value == 0))
  {
  }

  /**
   * A kept line has four fields and stores the parsed counts and candidate record under the
   * first field; it passed the filter and its candidate map is well formed.
   */
  lemma ParseNameLineKeeps(line: string)
    requires ParseNameLine(line).Ok? && ParseNameLine(line).value.Some?
    ensures var elements := SplitAtMost(line, SEPARATOR, 4);
      var (name, entry) := ParseNameLine(line).value.value;
      |elements| == 4 && name == elements[0] &&
      Ok(entry.linkedDocs) == ParseInt(elements[1]) && Ok(entry.totalDocs) == ParseInt(elements[2]) &&
      Ok((entry.nameFrequency, entry.candidates)) == ParseCandidatesEntry(elements[3]) &&
      Kept(entry)
  {
    var elements := SplitAtMost(line, SEPARATOR, 4);
    var parsed := ParseCandidatesEntry(elements[3]);
    assert parsed.Ok?;
    var parts := Split(elements[3], {CANDIDATE_SEPARATOR});
    var links := ParseLinks(parts[1..]).value;
    assert parsed.value.1 == PutEach(Empty(), links);
    PutEachValid(Empty(), links);
  }

  /** Every entry of a loaded index passed the filter, so the view's document counts are positive. */
  lemma LoadedNameIndex(lines: seq<string>)
    requires LoadUpTo(ParseNameLine, lines, |lines|).Ok?
    ensures var index := LoadUpTo(ParseNameLine, lines, |lines|).value;
      (forall name :: name in index ==> Kept(index[name])) &&
      CandidatesIndexes.WellFormed(AsCandidatesIndex(index))
  {
    forall q | 0 <= q < |lines| && ParseNameLine(lines[q]).Ok? && ParseNameLine(lines[q]).value.Some?
      ensures Kept(ParseNameLine(lines[q]).value.value.1)
    {
      ParseNameLineKeeps(lines[q]);
    }
    LoadUpToValues(ParseNameLine, lines, |lines|, Kept);
  }

  /** On a loaded entry, the count is the length of the candidate array, and the most frequent entity is one of them. */
  lemma CandidateGettersAgree(index: NameIndex, name: string)
    requires name in index && Kept(index[name])
    ensures CandidateEntitiesCount(index, name).value == |CandidateEntities(index, name).value|
    ensures (|CandidateEntities(index, name).value| > 0 &&
      forall e :: e in index[name].candidates.values ==> index[name].candidates.values[e] >= 0) ==>
      MostFrequentEntity(index, name).value in CandidateEntities(index, name).value
  {
    var m := index[name].candidates;
    DistinctKeysCount(m);
    MostFrequentIsFirstMaximum(m);
  }

  /** The line a kept entry is written as: name, linked count, total count and the candidate text, tab separated. */
  function NameLine(name: string, entry: NameEntry): string
    requires entry.candidates.Valid()
  {
    Join([name, IntToString(entry.linkedDocs), IntToString(entry.totalDocs),
      CandidatesText(entry.nameFrequency, entry.candidates)], [SEPARATOR])
  }

  /** A kept entry with int fields, written under a name without tabs, parses back to that name and entry. */
  lemma ParseNameLineRoundTrip(name: string, entry: NameEntry)
    requires SEPARATOR !in name && Kept(entry)
    requires IsInt32(entry.linkedDocs) && IsInt32(entry.totalDocs) && IsInt32(entry.nameFrequency)
    requires MapInt32(entry.candidates)
    ensures ParseNameLine(NameLine(name, entry)) == Ok(Some((name, entry)))
  {
    var linked, total := IntToString(entry.linkedDocs), IntToString(entry.totalDocs);
    var text := CandidatesText(entry.nameFrequency, entry.candidates);
    IntToStringHasNo(entry.linkedDocs, SEPARATOR);
    IntToStringHasNo(entry.totalDocs, SEPARATOR);
    SplitAtMostJoin([name, linked, total, text], SEPARATOR);
    ParseIntToString(entry.linkedDocs);
    ParseIntToString(entry.totalDocs);
    CandidatesTextRoundTrip(entry.nameFrequency, entry.candidates);
    ParseFourFields(NameLine(name, entry), name, linked, total, text);
  }

  /** A line whose four fields all parse and pass the filter is kept with those values. */
  lemma ParseFourFields(line: string, a: string, b: string, c: string, rest: string)
    requires SplitAtMost(line, SEPARATOR, 4) == [a, b, c, rest]
    requires ParseInt(b).Ok? && ParseInt(c).Ok? && ParseInt(c).value >= MINIMUM_COUNT && ParseInt(b).value != 0
    requires ParseCandidatesEntry(rest).Ok?
    ensures ParseNameLine(line) == Ok(Some((a, NameEntry(ParseInt(b).value, ParseInt(c).value,
      ParseCandidatesEntry(rest).value.0, ParseCandidatesEntry(rest).value.1))))
  {
  }

  /** A well-formed map lists as many keys as it maps. */
  lemma ValidKeysCount(m: OrderedMap<int, int>)
    ensures m.Valid() ==> |m.keys| == |m.values.Keys|
  {
    if m.Valid() {
      DistinctKeysCount(m);
    }
  }
}
