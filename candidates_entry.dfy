/**
 * The candidate record of one name: how often the name is linked, and a map from candidate
 * entity to the number of times the name links to it. Like the inlink record it has a
 * tab-separated text form and a binary form of 32-bit words; reading the binary form puts
 * the read candidates into the map already held.
 */
module CandidatesEntries {
  import opened Wrappers
  import opened JavaLang
  import opened OrderedMaps
  import opened ArgMaxes
  import opened EntityLinksEntries

  const CANDIDATE_SEPARATOR: char := '\t'

  /** The (entity, frequency) entries in iteration order. */
  function Entries(m: OrderedMap<int, int>): (r: seq<Link>)
    requires m.Valid()
    ensures |r| == |m.keys|
    ensures forall i :: 0 <= i < |r| ==> r[i] == Link(m.keys[i], m.values[m.keys[i]])
  {
    seq(|m.keys|, i requires 0 <= i < |m.keys| && m.Valid() => Link(m.keys[i], m.values[m.keys[i]]))
  }

  /** Puts each (entity, frequency) into m in order. */
  function PutEach(m: OrderedMap<int, int>, links: seq<Link>): OrderedMap<int, int>
    decreases |links|
  {
    if |links| == 0 then m else PutEach(m.Put(links[0].entity, links[0].frequency), links[1..])
  }

  predicate MapInt32(m: OrderedMap<int, int>)
  {
    forall k :: k in m.values ==> IsInt32(k) && IsInt32(m.values[k])
  }

  // ---------------------------------------------------------------------------
  // Text form.

  /** toString: the name frequency, a tab, then the "entity,frequency" entries joined by tabs. */
  function CandidatesText(nameFrequency: int, m: OrderedMap<int, int>): string
    requires m.Valid()
  {
    IntToString(nameFrequency) + [CANDIDATE_SEPARATOR] + Join(LinkTexts(Entries(m)), [CANDIDATE_SEPARATOR])
  }

  /** The String constructor: the name frequency from the first field, then one put per entry field. */
  function ParseCandidatesEntry(text: string): Result<(int, OrderedMap<int, int>)>
  {
    var parts := Split(text, {CANDIDATE_SEPARATOR});
    if |parts| == 0 then Err(ArrayIndexOutOfBounds)
    else
      var nameFrequency :- ParseInt(parts[0]);
      var links :- ParseLinks(parts[1..]);
      Ok((nameFrequency, PutEach(Empty(), links)))
  }

  lemma {:induction false} PutEachSnoc(m: OrderedMap<int, int>, links: seq<Link>, l: Link)
    ensures PutEach(m, links + [l]) == PutEach(m, links).Put(l.entity, l.frequency)
    decreases |links|
  {
    if |links| == 0 {
      assert (links + [l])[1..] == [];
    } else {
      assert (links + [l])[1..] == links[1..] + [l];
      PutEachSnoc(m.Put(links[0].entity, links[0].frequency), links[1..], l);
    }
  }

  /** Putting entries keeps a map well formed. */
  lemma {:induction false} PutEachValid(m: OrderedMap<int, int>, links: seq<Link>)
    requires m.Valid()
    ensures PutEach(m, links).Valid()
    decreases |links|
  {
    if |links| > 0 {
      PutValid(m, links[0].entity, links[0].frequency);
      PutEachValid(m.Put(links[0].entity, links[0].frequency), links[1..]);
    }
  }

  /** The first k keys of m, with their values. */
  function Prefix(m: OrderedMap<int, int>, k: nat): OrderedMap<int, int>
    requires m.Valid() && k <= |m.keys|
  {
    OrderedMap(m.keys[..k], map key | key in m.keys[..k] :: m.values[key])
  }

  lemma {:induction false} PutEachPrefix(m: OrderedMap<int, int>, k: nat)
    requires m.Valid() && k <= |m.keys|
    ensures PutEach(Empty(), Entries(m)[..k]) == Prefix(m, k)
    decreases k
  {
    if k > 0 {
      var es := Entries(m);
      PutEachPrefix(m, k - 1);
      assert es[..k] == es[..k - 1] + [es[k - 1]];
      PutEachSnoc(Empty(), es[..k - 1], es[k - 1]);
      var p := Prefix(m, k - 1);
      assert m.keys[k - 1] !in p.values;
      assert m.keys[..k] == m.keys[..k - 1] + [m.keys[k - 1]];
      assert p.Put(m.keys[k - 1], m.values[m.keys[k - 1]]).values == Prefix(m, k).values;
    } else {
      assert Prefix(m, 0).values == map[];
    }
  }

  /** Putting a well-formed map's entries into an empty map in iteration order rebuilds it. */
  lemma PutEachSelf(m: OrderedMap<int, int>)
    requires m.Valid()
    ensures PutEach(Empty(), Entries(m)) == m
  {
    PutEachPrefix(m, |m.keys|);
    assert Entries(m)[..|m.keys|] == Entries(m);
    assert m.keys[..|m.keys|] == m.keys;
  }

  lemma EntriesInt32(m: OrderedMap<int, int>)
    requires m.Valid() && MapInt32(m)
    ensures LinksInt32(Entries(m))
  {
    forall i | 0 <= i < |m.keys| ensures IsInt32(Entries(m)[i].entity) && IsInt32(Entries(m)[i].frequency) {
      assert m.keys[i] in m.values;
    }
  }

  /** A field, the separator and a join of fields split into the fields; a trailing separator adds nothing. */
  lemma SplitHeadThenJoin(head: string, ts: seq<string>, c: char)
    requires |head| > 0 && NoneIn(head, {c})
    requires forall i :: 0 <= i < |ts| ==> |ts[i]| > 0 && NoneIn(ts[i], {c})
    ensures Split(head + [c] + Join(ts, [c]), {c}) == [head] + ts
  {
    var sep := [c];
    if |ts| == 0 {
      assert head + sep + Join(ts, sep) == head + [c] + [];
      SplitAround(head, c, [], {c});
      SplitSingle(head, {c});
    } else {
      JoinThen([ts[0]], ts[1..], sep);
      assert [ts[0]] + ts[1..] == ts;
      JoinThen([head, ts[0]], ts[1..], sep);
      assert Join([head, ts[0]], sep) == head + sep + ts[0] by {
        assert [head, ts[0]][1..] == [ts[0]];
      }
      assert [head, ts[0]] + ts[1..] == [head] + ts;
      SplitJoin([head] + ts, c, {c});
    }
  }

  /** Parsing the text form gives back the name frequency and the map, in iteration order; an empty map included. */
  lemma CandidatesTextRoundTrip(nameFrequency: int, m: OrderedMap<int, int>)
    requires IsInt32(nameFrequency) && m.Valid() && MapInt32(m)
    ensures ParseCandidatesEntry(CandidatesText(nameFrequency, m)) == Ok((nameFrequency, m))
  {
    var sep := [CANDIDATE_SEPARATOR];
    var seps := {CANDIDATE_SEPARATOR};
    var ts := LinkTexts(Entries(m));
    var nf := IntToString(nameFrequency);
    IntTextField(nameFrequency);
    EntriesInt32(m);
    forall i | 0 <= i < |ts| ensures |ts[i]| > 0 && NoneIn(ts[i], seps) {
      LinkTextField(Entries(m)[i]);
    }
    SplitHeadThenJoin(nf, ts, CANDIDATE_SEPARATOR);
    assert ([nf] + ts)[1..] == ts;
    ParseIntToString(nameFrequency);
    ParseLinkTexts(Entries(m));
    PutEachSelf(m);
  }

  // ---------------------------------------------------------------------------
  // Binary form.

  /** write: the name frequency, the number of candidates, then entity and frequency of each. */
  function CandidatesWords(nameFrequency: int, m: OrderedMap<int, int>): (r: seq<int>)
    requires m.Valid()
    ensures |r| == 2 + 2 * |m.keys|
  {
    [nameFrequency, |m.keys|] + LinkWords(Entries(m))
  }

  /**
   * The candidates loop of readFields: `count` more (entity, frequency) pairs put into m; a
   * pair cut short by the end of input is not put.
   */
  function ReadCandidates(m: OrderedMap<int, int>, input: seq<int>, pos: nat, count: nat): (r: (OrderedMap<int, int>, Result<nat>))
    decreases count
  {
    if count == 0 then (m, Ok(pos))
    else if pos + 2 > |input| then (m, Err(EndOfFile))
    else ReadCandidates(m.Put(input[pos], input[pos + 1]), input, pos + 2, count - 1)
  }

  /** readFields from position pos: the name frequency and map after the call, and the position after the entry or EndOfFile. */
  function ReadCandidatesEntry(nameFrequency: int, m: OrderedMap<int, int>, input: seq<int>, pos: nat): (r: (int, OrderedMap<int, int>, Result<nat>))
    requires forall i :: 0 <= i < |input| ==> IsInt32(input[i])
  {
    if pos >= |input| then (nameFrequency, m, Err(EndOfFile))
    else if pos + 1 >= |input| then (input[pos], m, Err(EndOfFile))
    else
      var read := ReadCandidates(m, input, pos + 2, DecrementCount(input[pos + 1]));
      (input[pos], read.0, read.1)
  }

  lemma {:induction false} ReadCandidateWords(m: OrderedMap<int, int>, more: seq<Link>, input: seq<int>, pos: nat)
    requires pos + 2 * |more| <= |input| && input[pos..pos + 2 * |more|] == LinkWords(more)
    ensures ReadCandidates(m, input, pos, |more|) == (PutEach(m, more), Ok(pos + 2 * |more|))
    decreases |more|
  {
    if |more| > 0 {
      var l := more[0];
      var rest := more[1..];
      assert LinkWords(more) == [l.entity, l.frequency] + LinkWords(rest) by {
        LinkWordsCons(l, rest);
        assert more == [l] + rest;
      }
      assert input[pos] == l.entity && input[pos + 1] == l.frequency by {
        assert input[pos..pos + 2 * |more|][0] == input[pos];
        assert input[pos..pos + 2 * |more|][1] == input[pos + 1];
      }
      assert input[pos + 2..pos + 2 + 2 * |rest|] == LinkWords(rest) by {
        assert input[pos + 2..pos + 2 + 2 * |rest|] == input[pos..pos + 2 * |more|][2..];
      }
      ReadCandidateWords(m.Put(l.entity, l.frequency), rest, input, pos + 2);
      assert ReadCandidates(m, input, pos, |more|) == ReadCandidates(m.Put(l.entity, l.frequency), input, pos + 2, |rest|);
    }
  }

  /**
   * Reading what write produced takes the written name frequency and puts every written
   * entry, in order, into the map already held, stopping right after the entry; into an
   * empty map it rebuilds the written one.
   */
  lemma CandidatesWordsRoundTrip(nf0: int, held: OrderedMap<int, int>, nameFrequency: int, m: OrderedMap<int, int>, rest: seq<int>)
    requires IsInt32(nameFrequency) && m.Valid() && MapInt32(m) && |m.keys| <= INT_MAX
    requires forall i :: 0 <= i < |rest| ==> IsInt32(rest[i])
    ensures forall i :: 0 <= i < |CandidatesWords(nameFrequency, m) + rest| ==> IsInt32((CandidatesWords(nameFrequency, m) + rest)[i])
    ensures ReadCandidatesEntry(nf0, held, CandidatesWords(nameFrequency, m) + rest, 0)
         == (nameFrequency, PutEach(held, Entries(m)), Ok(|CandidatesWords(nameFrequency, m)|))
    ensures held == Empty() ==> PutEach(held, Entries(m)) == m
  {
    var input := CandidatesWords(nameFrequency, m) + rest;
    EntriesInt32(m);
    LinkWordsInt32(Entries(m));
    assert input[2..2 + 2 * |m.keys|] == LinkWords(Entries(m));
    ReadCandidateWords(held, Entries(m), input, 2);
    PutEachSelf(m);
  }

  // ---------------------------------------------------------------------------
  // Most frequent candidate.

  function Frequency(m: OrderedMap<int, int>): int -> real
  {
    k => if k in m.values then m.values[k] as real else 0.0
  }

  /** getMostFrequentEntity: a strictly greater frequency replaces the best, starting from (-1, -1). */
  function MostFrequent(m: OrderedMap<int, int>): int
  {
    Best(m.keys, Frequency(m), (-1, -1.0), false).0
  }

  /**
   * No candidates give -1; with frequencies that are never negative, the result is the first
   * entity in iteration order whose frequency is maximal.
   */
  lemma MostFrequentIsFirstMaximum(m: OrderedMap<int, int>)
    requires m.Valid()
    ensures |m.keys| == 0 ==> MostFrequent(m) == -1
    ensures |m.keys| > 0 && (forall k :: k in m.values ==> m.values[k] >= 0) ==>
      exists p :: FirstMaxAt(m.keys, Frequency(m), p) && MostFrequent(m) == m.keys[p]
  {
    BestStrict(m.keys, Frequency(m), (-1, -1.0));
    if |m.keys| > 0 && (forall k :: k in m.values ==> m.values[k] >= 0) {
      assert m.keys[0] in m.values;
      assert Frequency(m)(m.keys[0]) > -1.0;
    }
  }

  // ---------------------------------------------------------------------------
  // The record object.

  class CandidatesEntry {
    var nameFrequency: int
    var topCandidates: OrderedMap<int, int>

    ghost predicate Valid()
      reads this
    {
      topCandidates.Valid()
    }

    /** CandidatesEntry(nameFrequency): no candidates yet. */
    constructor (nameFrequency: int)
      ensures Valid()
      ensures this.nameFrequency == nameFrequency && topCandidates == Empty()
    {
      this.nameFrequency := nameFrequency;
      topCandidates := Empty();
    }

    /** CandidatesEntry(totalFrequency, topCandidates). */
    constructor WithCandidates(totalFrequency: int, topCandidates: OrderedMap<int, int>)
      requires topCandidates.Valid()
      ensures Valid()
      ensures nameFrequency == totalFrequency && this.topCandidates == topCandidates
    {
      nameFrequency := totalFrequency;
      this.topCandidates := topCandidates;
    }

    /** getCandidatesCount: the number of distinct candidate entities. */
    function CandidatesCount(): (r: nat)
      requires Valid()
      reads this
      ensures r == |topCandidates.values.Keys|
    {
      DistinctKeysCount(topCandidates);
      |topCandidates.keys|
    }

    /** getCandidateFrequency: null for an entity that is not a candidate. */
    function CandidateFrequency(entity: int): (r: Option<int>)
      reads this
      ensures r.Some? <==> entity in topCandidates.values
      ensures r.Some? ==> r.value == topCandidates.values[entity]
    {
      if entity in topCandidates.values then Some(topCandidates.values[entity]) else None
    }

    /** setCandidateFrequency: inserts or overwrites only this entity's frequency. */
    method SetCandidateFrequency(entity: int, frequency: int)
      requires Valid()
      modifies this
      ensures Valid()
      ensures nameFrequency == old(nameFrequency)
      ensures topCandidates == old(topCandidates).Put(entity, frequency)
    {
      PutValid(topCandidates, entity, frequency);
      topCandidates := topCandidates.Put(entity, frequency);
    }

    method GetMostFrequentEntity() returns (r: int)
      ensures r == MostFrequent(topCandidates)
    {
      var bestEntity := -1;
      var bestFrequency := -1;
      var keys := topCandidates.keys;
      var i := 0;
      while i < |keys|
        invariant 0 <= i <= |keys|
        invariant (bestEntity, bestFrequency as real) == Best(keys[..i], Frequency(topCandidates), (-1, -1.0), false)
      {
        assert keys[..i + 1][..i] == keys[..i];
        var frequency := if keys[i] in topCandidates.values then topCandidates.values[keys[i]] else 0;
        if frequency > bestFrequency {
          bestFrequency := frequency;
          bestEntity := keys[i];
        }
        i := i + 1;
      }
      assert keys[..i] == keys;
      r := bestEntity;
    }

    method ToString() returns (s: string)
      requires Valid()
      ensures s == CandidatesText(nameFrequency, topCandidates)
    {
      var entries := Entries(topCandidates);
      s := Join(LinkTexts(entries), [CANDIDATE_SEPARATOR]);
      s := IntToString(nameFrequency) + [CANDIDATE_SEPARATOR] + s;
    }

    method Write() returns (out: seq<int>)
      requires Valid()
      ensures out == CandidatesWords(nameFrequency, topCandidates)
    {
      var entries := Entries(topCandidates);
      out := [nameFrequency, |topCandidates.keys|];
      var i := 0;
      while i < |entries|
        invariant 0 <= i <= |entries|
        invariant out == [nameFrequency, |topCandidates.keys|] + LinkWords(entries[..i])
      {
        assert entries[..i + 1][..i] == entries[..i];
        out := out + [entries[i].entity, entries[i].frequency];
        i := i + 1;
      }
      assert entries[..i] == entries;
    }

    /**
     * readFields from input at pos: the candidates read are put into the map already held;
     * returns the position after the entry, or EndOfFile with what was read so far kept.
     */
    method ReadFields(input: seq<int>, pos: nat) returns (r: Result<nat>)
      requires Valid()
      requires forall i :: 0 <= i < |input| ==> IsInt32(input[i])
      modifies this
      ensures Valid()
      ensures (nameFrequency, topCandidates, r) == ReadCandidatesEntry(old(nameFrequency), old(topCandidates), input, pos)
    {
      if pos >= |input| {
        return Err(EndOfFile);
      }
      nameFrequency := input[pos];
      if pos + 1 >= |input| {
        return Err(EndOfFile);
      }
      var numCandidates := input[pos + 1];
      var at := pos + 2;
      ghost var held := topCandidates;
      while numCandidates != 0
        invariant IsInt32(numCandidates) && topCandidates.Valid()
        invariant ReadCandidates(topCandidates, input, at, DecrementCount(numCandidates))
               == ReadCandidates(held, input, pos + 2, DecrementCount(input[pos + 1]))
        invariant nameFrequency == input[pos]
        decreases DecrementCount(numCandidates)
      {
        DecrementOnce(numCandidates);
        numCandidates := Wrap32(numCandidates - 1);
        if at + 2 > |input| {
          return Err(EndOfFile);
        }
        PutValid(topCandidates, input[at], input[at + 1]);
        topCandidates := topCandidates.Put(input[at], input[at + 1]);
        at := at + 2;
      }
      r := Ok(at);
    }
  }

  /** The String constructor: a fresh record holding the parsed fields, or the exception thrown. */
  method FromText(text: string) returns (r: Result<CandidatesEntry>)
    ensures r.Err? <==> ParseCandidatesEntry(text).Err?
    ensures r.Err? ==> r.error == ParseCandidatesEntry(text).error
    ensures r.Ok? ==> (fresh(r.value) && r.value.Valid() &&
      (r.value.nameFrequency, r.value.topCandidates) == ParseCandidatesEntry(text).value)
  {
    var parts := Split(text, {CANDIDATE_SEPARATOR});
    if |parts| == 0 {
      return Err(ArrayIndexOutOfBounds);
    }
    var nameFrequency := ParseInt(parts[0]);
    if nameFrequency.Err? {
      return Err(nameFrequency.error);
    }
    var entry := new CandidatesEntry(nameFrequency.value);
    var pairs := parts[1..];
    ghost var links: seq<Link> := [];
    var i := 0;
    while i < |pairs|
      invariant 0 <= i <= |pairs|
      invariant ParseLinks(pairs[..i]) == Ok(links)
      invariant entry.topCandidates == PutEach(Empty(), links) && entry.Valid()
      invariant entry.nameFrequency == nameFrequency.value
    {
      var link := ParseLink(pairs[i]);
      assert pairs[..i + 1][..i] == pairs[..i];
      if link.Err? {
        ParseLinksFails(pairs, i + 1);
        return Err(link.error);
      }
      PutEachSnoc(Empty(), links, link.value);
      entry.SetCandidateFrequency(link.value.entity, link.value.frequency);
      links := links + [link.value];
      i := i + 1;
    }
    assert pairs[..i] == pairs;
    r := Ok(entry);
  }

  /** A well-formed map has as many keys in its order as it maps. */
  lemma DistinctKeysCount(m: OrderedMap<int, int>)
    requires m.Valid()
    ensures |m.keys| == |m.values.Keys|
  {
    DistinctSeqCount(m.keys);
    assert m.values.Keys == set k | k in m.keys;
  }

  lemma {:induction false} DistinctSeqCount(keys: seq<int>)
    requires forall i, j :: 0 <= i < j < |keys| ==> keys[i] != keys[j]
    ensures |set k | k in keys| == |keys|
    decreases |keys|
  {
    if |keys| > 0 {
      var init := keys[..|keys| - 1];
      DistinctSeqCount(init);
      var last := keys[|keys| - 1];
      assert (set k | k in keys) == (set k | k in init) + {last};
      assert last !in (set k | k in init);
    }
  }
}
