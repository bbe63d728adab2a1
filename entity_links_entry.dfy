/**
 * The inlink record of one entity: how often it is linked in total, how many links its own
 * page holds, and the (linking entity, frequency) pairs in list order. The record has a
 * tab-separated text form and a binary form of 32-bit words, and reading the binary form
 * appends to the links already held.
 */
module EntityLinksEntries {
  import opened Wrappers
  import opened JavaLang

  /** A PairOfInts(entity, frequency). */
  datatype Link = Link(entity: int, frequency: int)

  /** The record's three fields as one value. */
  datatype LinksRecord = LinksRecord(totalFrequency: int, noLinks: int, links: seq<Link>)

  const BETWEEN_ENTRY_SEPARATOR: char := '\t'
  const INTRA_ENTRY_SEPARATOR: char := ','

  predicate LinksInt32(links: seq<Link>)
  {
    forall i :: 0 <= i < |links| ==> IsInt32(links[i].entity) && IsInt32(links[i].frequency)
  }

  predicate RecordInt32(e: LinksRecord)
  {
    IsInt32(e.totalFrequency) && IsInt32(e.noLinks) && LinksInt32(e.links)
  }

  // ---------------------------------------------------------------------------
  // Text form.

  /** One link as "entity,frequency". */
  function LinkText(l: Link): string
  {
    IntToString(l.entity) + [INTRA_ENTRY_SEPARATOR] + IntToString(l.frequency)
  }

  /** "\tentity,frequency" for each link, in list order. */
  function LinksText(links: seq<Link>): string
  {
    SepConcat(LinkTexts(links), [BETWEEN_ENTRY_SEPARATOR])
  }

  /** toString: "total\tnoLinks" followed by the links. */
  function EntryText(e: LinksRecord): string
  {
    IntToString(e.totalFrequency) + [BETWEEN_ENTRY_SEPARATOR] + IntToString(e.noLinks) + LinksText(e.links)
  }

  /** One "entity,frequency" field: both halves must be present and parse as ints. */
  function ParseLink(pair: string): Result<Link>
  {
    var parts := Split(pair, {INTRA_ENTRY_SEPARATOR});
    if |parts| == 0 then Err(ArrayIndexOutOfBounds)
    else
      var entity :- ParseInt(parts[0]);
      if |parts| < 2 then Err(ArrayIndexOutOfBounds)
      else
        var frequency :- ParseInt(parts[1]);
        Ok(Link(entity, frequency))
  }

  /** The link fields parsed in order; the first one that fails decides the error. */
  function ParseLinks(pairs: seq<string>): Result<seq<Link>>
  {
    if |pairs| == 0 then Ok([])
    else
      var init :- ParseLinks(pairs[..|pairs| - 1]);
      var l :- ParseLink(pairs[|pairs| - 1]);
      Ok(init + [l])
  }

  /** The String constructor: total and noLinks from the first two fields, then the links. */
  function ParseEntry(input: string): Result<LinksRecord>
  {
    var tokens := Split(input, {BETWEEN_ENTRY_SEPARATOR});
    if |tokens| == 0 then Err(ArrayIndexOutOfBounds)
    else
      var total :- ParseInt(tokens[0]);
      if |tokens| < 2 then Err(ArrayIndexOutOfBounds)
      else
        var noLinks :- ParseInt(tokens[1]);
        var links :- ParseLinks(tokens[2..]);
        Ok(LinksRecord(total, noLinks, links))
  }

  function LinkTexts(links: seq<Link>): (r: seq<string>)
    ensures |r| == |links|
    ensures forall i :: 0 <= i < |links| ==> r[i] == LinkText(links[i])
  {
    seq(|links|, i requires 0 <= i < |links| => LinkText(links[i]))
  }

  lemma LinkTextsSnoc(links: seq<Link>, i: nat)
    requires i < |links|
    ensures LinkTexts(links[..i + 1]) == LinkTexts(links[..i]) + [LinkText(links[i])]
  {
    var a := LinkTexts(links[..i + 1]);
    var b := LinkTexts(links[..i]) + [LinkText(links[i])];
    assert |a| == |b|;
    forall k | 0 <= k < |a| ensures a[k] == b[k] {
      assert links[..i + 1][k] == links[k];
    }
  }

  /** An int's text is non-empty and holds neither separator. */
  lemma IntTextField(n: int)
    ensures |IntToString(n)| > 0
    ensures NoneIn(IntToString(n), {BETWEEN_ENTRY_SEPARATOR, INTRA_ENTRY_SEPARATOR})
  {
    IntToStringHasNo(n, BETWEEN_ENTRY_SEPARATOR);
    IntToStringHasNo(n, INTRA_ENTRY_SEPARATOR);
  }

  lemma ParseLinkText(l: Link)
    requires IsInt32(l.entity) && IsInt32(l.frequency)
    ensures ParseLink(LinkText(l)) == Ok(l)
  {
    IntTextField(l.entity);
    IntTextField(l.frequency);
    var parts := [IntToString(l.entity), IntToString(l.frequency)];
    assert Join(parts[1..], [INTRA_ENTRY_SEPARATOR]) == IntToString(l.frequency);
    assert LinkText(l) == Join(parts, [INTRA_ENTRY_SEPARATOR]);
    SplitJoin(parts, INTRA_ENTRY_SEPARATOR, {INTRA_ENTRY_SEPARATOR});
    ParseIntToString(l.entity);
    ParseIntToString(l.frequency);
  }

  /** Fields that each parse to their link parse to the list of links. */
  lemma {:induction false} ParseLinksEach(pairs: seq<string>, links: seq<Link>)
    requires |pairs| == |links|
    requires forall i :: 0 <= i < |pairs| ==> ParseLink(pairs[i]) == Ok(links[i])
    ensures ParseLinks(pairs) == Ok(links)
    decreases |pairs|
  {
    if |pairs| > 0 {
      var n := |pairs| - 1;
      ParseLinksEach(pairs[..n], links[..n]);
      assert links == links[..n] + [links[n]];
    }
  }

  lemma ParseLinkTexts(links: seq<Link>)
    requires LinksInt32(links)
    ensures ParseLinks(LinkTexts(links)) == Ok(links)
  {
    var ts := LinkTexts(links);
    forall i | 0 <= i < |ts|
      ensures ParseLink(ts[i]) == Ok(links[i])
    {
      ParseLinkText(links[i]);
    }
    ParseLinksEach(ts, links);
  }

  /** A link's text is non-empty and has no tab. */
  lemma LinkTextField(l: Link)
    ensures |LinkText(l)| > 0 && NoneIn(LinkText(l), {BETWEEN_ENTRY_SEPARATOR})
  {
    IntTextField(l.entity);
    IntTextField(l.frequency);
  }

  /** Parsing the text form gives the record back, links in order. */
  lemma EntryTextRoundTrip(e: LinksRecord)
    requires RecordInt32(e)
    ensures ParseEntry(EntryText(e)) == Ok(e)
  {
    var head := [IntToString(e.totalFrequency), IntToString(e.noLinks)];
    assert Join(head, [BETWEEN_ENTRY_SEPARATOR])
        == IntToString(e.totalFrequency) + [BETWEEN_ENTRY_SEPARATOR] + IntToString(e.noLinks) by {
      assert Join(head[1..], [BETWEEN_ENTRY_SEPARATOR]) == IntToString(e.noLinks);
    }
    JoinThen(head, LinkTexts(e.links), [BETWEEN_ENTRY_SEPARATOR]);
    var fields := head + LinkTexts(e.links);
    IntTextField(e.totalFrequency);
    IntTextField(e.noLinks);
    forall i | 0 <= i < |fields|
      ensures |fields[i]| > 0 && NoneIn(fields[i], {BETWEEN_ENTRY_SEPARATOR})
    {
      if i >= 2 {
        LinkTextField(e.links[i - 2]);
      }
    }
    SplitJoin(fields, BETWEEN_ENTRY_SEPARATOR, {BETWEEN_ENTRY_SEPARATOR});
    assert fields[2..] == LinkTexts(e.links);
    ParseLinkTexts(e.links);
    ParseIntToString(e.totalFrequency);
    ParseIntToString(e.noLinks);
  }

  /** A field that fails to parse makes every longer list of fields fail with its error. */
  lemma {:induction false} ParseLinksFails(pairs: seq<string>, k: nat)
    requires k <= |pairs| && ParseLinks(pairs[..k]).Err?
    ensures ParseLinks(pairs) == ParseLinks(pairs[..k])
    decreases |pairs| - k
  {
    if k < |pairs| {
      assert pairs[..k + 1][..k] == pairs[..k];
      ParseLinksFails(pairs, k + 1);
    } else {
      assert pairs[..k] == pairs;
    }
  }

  // ---------------------------------------------------------------------------
  // Binary form: a stream of 32-bit words.

  /** The words of the links, entity then frequency. */
  function LinkWords(links: seq<Link>): (r: seq<int>)
    ensures |r| == 2 * |links|
  {
    if |links| == 0 then []
    else LinkWords(links[..|links| - 1]) + [links[|links| - 1].entity, links[|links| - 1].frequency]
  }

  /** write: total, noLinks, the number of links, then each link. */
  function EntryWords(e: LinksRecord): (r: seq<int>)
    ensures |r| == 3 + 2 * |e.links|
  {
    [e.totalFrequency, e.noLinks, |e.links|] + LinkWords(e.links)
  }

  /**
   * The entries loop of readFields: `count` more (entity, frequency) pairs from position pos,
   * each appended to links; a pair cut short by the end of input is not added.
   */
  function ReadLinks(links: seq<Link>, input: seq<int>, pos: nat, count: nat): (r: (seq<Link>, Result<nat>))
    decreases count
  {
    if count == 0 then (links, Ok(pos))
    else if pos + 2 > |input| then (links, Err(EndOfFile))
    else ReadLinks(links + [Link(input[pos], input[pos + 1])], input, pos + 2, count - 1)
  }

  /**
   * readFields from position pos: the fields after the call, and the position after the
   * entry or EndOfFile. Fields read before the end of input keep their new values.
   */
  function ReadEntry(e: LinksRecord, input: seq<int>, pos: nat): (r: (LinksRecord, Result<nat>))
    requires forall i :: 0 <= i < |input| ==> IsInt32(input[i])
  {
    if pos >= |input| then (e, Err(EndOfFile))
    else if pos + 1 >= |input| then (e.(totalFrequency := input[pos]), Err(EndOfFile))
    else if pos + 2 >= |input| then (e.(totalFrequency := input[pos], noLinks := input[pos + 1]), Err(EndOfFile))
    else
      var read := ReadLinks(e.links, input, pos + 3, DecrementCount(input[pos + 2]));
      (LinksRecord(input[pos], input[pos + 1], read.0), read.1)
  }

  lemma {:induction false} ReadLinkWords(links: seq<Link>, more: seq<Link>, input: seq<int>, pos: nat)
    requires pos + 2 * |more| <= |input| && input[pos..pos + 2 * |more|] == LinkWords(more)
    ensures ReadLinks(links, input, pos, |more|) == (links + more, Ok(pos + 2 * |more|))
    decreases |more|
  {
    if |more| == 0 {
      assert links + more == links;
    } else {
      var l := more[0];
      var rest := more[1..];
      assert LinkWords(more) == [l.entity, l.frequency] + LinkWords(rest) by {
        LinkWordsCons(l, rest);
        assert more == [l] + rest;
      }
      assert input[pos] == l.entity && input[pos + 1] == l.frequency by {
        assert input[pos..pos + 2 * |more|][0] == input[pos];
        assert input[pos..pos + 2 * |more|][1] == input[pos + 1];
      }
      assert input[pos + 2..pos + 2 + 2 * |rest|] == LinkWords(rest) by {
        assert input[pos + 2..pos + 2 + 2 * |rest|] == input[pos..pos + 2 * |more|][2..];
      }
      ReadLinkWords(links + [l], rest, input, pos + 2);
      assert ReadLinks(links, input, pos, |more|) == ReadLinks(links + [l], input, pos + 2, |rest|);
      assert links + [l] + rest == links + more;
    }
  }

  lemma {:induction false} LinkWordsCons(l: Link, rest: seq<Link>)
    ensures LinkWords([l] + rest) == [l.entity, l.frequency] + LinkWords(rest)
    decreases |rest|
  {
    if |rest| > 0 {
      var init := rest[..|rest| - 1];
      assert ([l] + rest)[..|rest|] == [l] + init;
      LinkWordsCons(l, init);
    }
  }

  /**
   * Reading what write produced appends the written links to those already held, takes the
   * written total and noLinks, and stops right after the entry, whatever follows it.
   */
  lemma EntryWordsRoundTrip(held: LinksRecord, e: LinksRecord, rest: seq<int>)
    requires RecordInt32(e) && |e.links| <= INT_MAX
    requires forall i :: 0 <= i < |rest| ==> IsInt32(rest[i])
    ensures forall i :: 0 <= i < |EntryWords(e) + rest| ==> IsInt32((EntryWords(e) + rest)[i])
    ensures ReadEntry(held, EntryWords(e) + rest, 0)
         == (LinksRecord(e.totalFrequency, e.noLinks, held.links + e.links), Ok(|EntryWords(e)|))
  {
    var input := EntryWords(e) + rest;
    LinkWordsInt32(e.links);
    assert input[3..3 + 2 * |e.links|] == LinkWords(e.links);
    ReadLinkWords(held.links, e.links, input, 3);
  }

  lemma {:induction false} LinkWordsInt32(links: seq<Link>)
    requires LinksInt32(links)
    ensures forall i :: 0 <= i < |LinkWords(links)| ==> IsInt32(LinkWords(links)[i])
    decreases |links|
  {
    if |links| > 0 {
      LinkWordsInt32(links[..|links| - 1]);
    }
  }

  // ---------------------------------------------------------------------------
  // The record object.

  class EntityLinksEntry {
    var totalFrequency: int
    var noLinks: int
    var links: seq<Link>

    function Record(): LinksRecord
      reads this
    {
      LinksRecord(totalFrequency, noLinks, links)
    }

    /** The empty record: no links, both counts zero. */
    constructor ()
      ensures Record() == LinksRecord(0, 0, [])
    {
      totalFrequency := 0;
      noLinks := 0;
      links := [];
    }

    method SetTotalFrequency(totalFrequency: int)
      modifies this
      ensures Record() == old(Record()).(totalFrequency := totalFrequency)
    {
      this.totalFrequency := totalFrequency;
    }

    method SetNoLinks(noLinks: int)
      modifies this
      ensures Record() == old(Record()).(noLinks := noLinks)
    {
      this.noLinks := noLinks;
    }

    /** addEntry appends one link at the end; earlier links and the counts are unchanged. */
    method AddEntry(entity: int, frequency: int)
      modifies this
      ensures Record() == old(Record()).(links := old(links) + [Link(entity, frequency)])
    {
      links := links + [Link(entity, frequency)];
    }

    method ToString() returns (s: string)
      ensures s == EntryText(Record())
    {
      s := IntToString(totalFrequency) + [BETWEEN_ENTRY_SEPARATOR] + IntToString(noLinks);
      var i := 0;
      while i < |links|
        invariant 0 <= i <= |links|
        invariant s == EntryText(LinksRecord(totalFrequency, noLinks, links[..i]))
      {
        LinkTextsSnoc(links, i);
        s := s + [BETWEEN_ENTRY_SEPARATOR] + LinkText(links[i]);
        i := i + 1;
      }
      assert links[..i] == links;
    }

    method Write() returns (out: seq<int>)
      ensures out == EntryWords(Record())
    {
      out := [totalFrequency, noLinks, |links|];
      var i := 0;
      while i < |links|
        invariant 0 <= i <= |links|
        invariant out == [totalFrequency, noLinks, |links|] + LinkWords(links[..i])
      {
        assert links[..i + 1][..i] == links[..i];
        out := out + [links[i].entity, links[i].frequency];
        i := i + 1;
      }
      assert links[..i] == links;
    }

    /**
     * readFields from input at pos: returns the position after the entry, or EndOfFile with
     * the fields read so far kept.
     */
    method ReadFields(input: seq<int>, pos: nat) returns (r: Result<nat>)
      requires forall i :: 0 <= i < |input| ==> IsInt32(input[i])
      modifies this
      ensures (Record(), r) == ReadEntry(old(Record()), input, pos)
    {
      if pos >= |input| {
        return Err(EndOfFile);
      }
      totalFrequency := input[pos];
      if pos + 1 >= |input| {
        return Err(EndOfFile);
      }
      noLinks := input[pos + 1];
      if pos + 2 >= |input| {
        return Err(EndOfFile);
      }
      var numEntries := input[pos + 2];
      var at := pos + 3;
      ghost var held := links;
      while numEntries != 0
        invariant IsInt32(numEntries)
        invariant ReadLinks(links, input, at, DecrementCount(numEntries))
               == ReadLinks(held, input, pos + 3, DecrementCount(input[pos + 2]))
        invariant totalFrequency == input[pos] && noLinks == input[pos + 1]
        decreases DecrementCount(numEntries)
      {
        DecrementOnce(numEntries);
        numEntries := Wrap32(numEntries - 1);
        if at + 2 > |input| {
          return Err(EndOfFile);
        }
        links := links + [Link(input[at], input[at + 1])];
        at := at + 2;
      }
      r := Ok(at);
    }
  }

  /**
   * The String constructor: a fresh record holding the parsed fields, or the exception the
   * constructor throws.
   */
  method FromText(input: string) returns (r: Result<EntityLinksEntry>)
    ensures r.Err? <==> ParseEntry(input).Err?
    ensures r.Err? ==> r.error == ParseEntry(input).error
    ensures r.Ok? ==> fresh(r.value) && r.value.Record() == ParseEntry(input).value
  {
    var entry := new EntityLinksEntry();
    var tokens := Split(input, {BETWEEN_ENTRY_SEPARATOR});
    if |tokens| == 0 {
      return Err(ArrayIndexOutOfBounds);
    }
    var total := ParseInt(tokens[0]);
    if total.Err? {
      return Err(total.error);
    }
    entry.totalFrequency := total.value;
    if |tokens| < 2 {
      return Err(ArrayIndexOutOfBounds);
    }
    var noLinks := ParseInt(tokens[1]);
    if noLinks.Err? {
      return Err(noLinks.error);
    }
    entry.noLinks := noLinks.value;
    var pairs := tokens[2..];
    var i := 0;
    while i < |pairs|
      invariant 0 <= i <= |pairs|
      invariant ParseLinks(pairs[..i]) == Ok(entry.links)
      invariant entry.totalFrequency == total.value && entry.noLinks == noLinks.value
    {
      var link := ParseLink(pairs[i]);
      assert pairs[..i + 1][..i] == pairs[..i];
      if link.Err? {
        ParseLinksFails(pairs, i + 1);
        return Err(link.error);
      }
      entry.links := entry.links + [link.value];
      i := i + 1;
    }
    assert pairs[..i] == pairs;
    r := Ok(entry);
  }
}
