/**
 * The job that builds the candidate record of every anchor text: the mapper emits, for each
 * link of an article, its normalised anchor and the title id its target resolves to; the
 * reducer counts how often the anchor links to each entity and keeps the entities, most
 * frequent first, until one falls below two percent of the anchor's links.
 */
module EntityMentionFrequencyIndexBuilders {
  import opened Wrappers
  import opened JavaLang
  import opened OrderedMaps
  import opened Normalizers
  import opened CandidatesEntries
  import opened FrequencyMaps
  import opened WikiPages

  /** What one link emits: (anchor, target id) when the target resolves to a title and the anchor is not blank. */
  function LinkEmit(env: Environment, link: WikiLink): Result<seq<(string, int)>>
  {
    var targetEntityId :- TargetId(env, link);
    var anchor := AnchorText(env, link);
    Ok(if targetEntityId != NOT_CANONICAL_TITLE && IsNotBlank(anchor) then [(anchor, targetEntityId)] else [])
  }

  function Emitter(env: Environment): WikiLink -> Result<seq<(string, int)>>
  {
    link => LinkEmit(env, link)
  }

  /** The pairs the links emit, in link order; a target that cannot be processed fails the page. */
  function MentionEmits(links: seq<WikiLink>, env: Environment): Result<seq<(string, int)>>
  {
    EmitEach(links, Emitter(env))
  }

  /** Map.map: nothing for a page that is not an article; otherwise the pairs of its links. */
  method MapPage(page: Page, env: Environment) returns (r: Result<seq<(string, int)>>)
    ensures !page.isArticle ==> r == Ok([])
    ensures page.isArticle ==> r == MentionEmits(page.links, env)
  {
    if !page.isArticle {
      return Ok([]);
    }
    var links := page.links;
    var emits := [];
    for k := 0 to |links|
      invariant EmitEach(links[..k], Emitter(env)) == Ok(emits)
    {
      EmitEachStep(links, Emitter(env), k);
      var emitted := ProcessLink(env, links[k]);
      if emitted.Err? {
        EmitEachFailure(links, Emitter(env), k + 1);
        return Err(emitted.error);
      }
      emits := emits + emitted.value;
    }
    assert links[..|links|] == links;
    return Ok(emits);
  }

  /** The body of the loop over the links. */
  method ProcessLink(env: Environment, link: WikiLink) returns (r: Result<seq<(string, int)>>)
    ensures r == LinkEmit(env, link)
  {
    var normalizedAnchorText := Normalize(link.anchorText, env.unescape, env.stripMarkup);
    var target := TargetId(env, link);
    if target.Err? {
      return Err(target.error);
    }
    var targetEntityId := target.value;
    if targetEntityId != NOT_CANONICAL_TITLE && IsNotBlank(normalizedAnchorText) {
      r := Ok([(normalizedAnchorText, targetEntityId)]);
    } else {
      r := Ok([]);
    }
  }

  /** The link emits e: its target resolves to the title id e.1 and its anchor e.0 is not blank. */
  predicate EmittedBy(env: Environment, link: WikiLink, e: (string, int))
  {
    TargetId(env, link) == Ok(e.1) && e.1 != NOT_CANONICAL_TITLE && e.0 == AnchorText(env, link) && IsNotBlank(e.0)
  }

  /** One link emits at most one pair: (anchor, target id) when the target resolves to a title and the anchor is not blank. */
  lemma LinkEmitMeaning(env: Environment, link: WikiLink, e: (string, int))
    ensures LinkEmit(env, link).Ok? <==> TargetId(env, link).Ok?
    ensures LinkEmit(env, link).Ok? ==> |LinkEmit(env, link).value| <= 1
    ensures LinkEmit(env, link).Ok? ==> (e in LinkEmit(env, link).value ==> EmittedBy(env, link, e))
  {
  }

  lemma LinkEmitAll(env: Environment, link: WikiLink, e: (string, int))
    requires LinkEmit(env, link).Ok?
    ensures EmittedBy(env, link, e) ==> e in LinkEmit(env, link).value
  {
  }

  /**
   * On a page that does not fail, every link's target was processed, and a pair is emitted
   * exactly when some link's target resolves to its title id and its anchor is the pair's
   * non-blank anchor.
   */
  lemma MentionEmitsMeaning(links: seq<WikiLink>, env: Environment, e: (string, int))
    requires MentionEmits(links, env).Ok?
    ensures forall k :: 0 <= k < |links| ==> TargetId(env, links[k]).Ok?
    ensures e in MentionEmits(links, env).value <==> exists k :: 0 <= k < |links| && EmittedBy(env, links[k], e)
  {
    EmitEachMeaning(links, Emitter(env), e);
    forall k | 0 <= k < |links|
      ensures TargetId(env, links[k]).Ok?
      ensures e in LinkEmit(env, links[k]).value <==> EmittedBy(env, links[k], e)
    {
      assert Emitter(env)(links[k]) == LinkEmit(env, links[k]);
      LinkEmitMeaning(env, links[k], e);
      LinkEmitAll(env, links[k], e);
    }
  }

  /** The candidates kept: the entities before the first one below the cutoff, with their frequencies, in that order. */
  function TopCandidates(order: seq<int>, freq: map<int, int>, total: int): OrderedMap<int, int>
  {
    var kept := TopPrefix(order, freq, total);
    OrderedMap(kept, map k | k in kept && k in freq :: freq[k])
  }

  /** The map the candidate loop leaves: each kept entity put with its frequency, in order. */
  function PutKept(kept: seq<int>, freq: map<int, int>): OrderedMap<int, int>
  {
    if |kept| == 0 then Empty()
    else
      var last := kept[|kept| - 1];
      PutKept(kept[..|kept| - 1], freq).Put(last, if last in freq then freq[last] else 0)
  }

  /** Putting distinct counted entities in order gives them in that order, each with its count. */
  lemma {:induction false} PutKeptIsTop(kept: seq<int>, freq: map<int, int>)
    requires forall i, j :: 0 <= i < j < |kept| ==> kept[i] != kept[j]
    requires forall i :: 0 <= i < |kept| ==> kept[i] in freq
    ensures PutKept(kept, freq) == OrderedMap(kept, map k | k in kept && k in freq :: freq[k])
  {
    if |kept| > 0 {
      var init, last := kept[..|kept| - 1], kept[|kept| - 1];
      PutKeptIsTop(init, freq);
      assert kept == init + [last];
      assert last !in init;
    }
  }

  lemma PutKeptStep(order: seq<int>, freq: map<int, int>, i: nat)
    requires i < |order| && order[i] in freq
    ensures PutKept(order[..i + 1], freq) == PutKept(order[..i], freq).Put(order[i], freq[order[i]])
  {
    assert order[..i + 1][..i] == order[..i];
  }

  /**
   * Reduce.reduce. `order` is getEntriesSortedByValue of the counted map: every counted
   * entity once, most frequent first. The record holds the number of values and the kept
   * candidates; nothing is emitted when no candidate is kept.
   */
  method Reduce(values: seq<int>, order: seq<int>) returns (r: Option<CandidatesEntry>)
    requires SortedByFrequency(order, Frequencies(values))
    requires forall k :: k in Frequencies(values) ==> k in order
    ensures r.Some? <==> TopPrefix(order, Frequencies(values), |values|) != []
    ensures r.Some? ==> fresh(r.value) && r.value.Valid() && r.value.nameFrequency == |values|
    ensures r.Some? ==> r.value.topCandidates == TopCandidates(order, Frequencies(values), |values|)
  {
    var frequencyMap, total := CountValues(values);
    var nameEntry := new CandidatesEntry(total);
    PutCandidates(nameEntry, order, frequencyMap, total);
    ghost var kept := TopPrefix(order, frequencyMap, total);
    PutKeptIsTop(kept, frequencyMap);
    if nameEntry.CandidatesCount() > 0 {
      r := Some(nameEntry);
    } else {
      r := None;
    }
  }

  /** The loop over the sorted entries: put each one until the first below the cutoff. */
  method PutCandidates(nameEntry: CandidatesEntry, order: seq<int>, frequencyMap: map<int, int>, total: int)
    requires nameEntry.Valid() && nameEntry.topCandidates == Empty()
    requires forall i :: 0 <= i < |order| ==> order[i] in frequencyMap
    modifies nameEntry
    ensures nameEntry.Valid() && nameEntry.nameFrequency == old(nameEntry.nameFrequency)
    ensures nameEntry.topCandidates == PutKept(TopPrefix(order, frequencyMap, total), frequencyMap)
  {
    ghost var kept := TopPrefix(order, frequencyMap, total);
    var i := 0;
    while i < |order|
      invariant 0 <= i <= |kept|
      invariant nameEntry.Valid() && nameEntry.nameFrequency == old(nameEntry.nameFrequency)
      invariant nameEntry.topCandidates == PutKept(kept[..i], frequencyMap)
    {
      var entity := order[i];
      var frequency := frequencyMap[entity];
      TopPrefixIndex(order, frequencyMap, total, i);
      if !Passes(frequency, total) {
        break;
      }
      PutKeptStep(kept, frequencyMap, i);
      nameEntry.SetCandidateFrequency(entity, frequency);
      i := i + 1;
    }
    assert kept[..i] == kept;
  }

  /**
   * The kept candidates are exactly the entities the anchor links to at least total * 0.02
   * times, each with the number of links to it, listed once; none is kept exactly when no
   * entity reaches the cutoff.
   */
  lemma TopCandidatesMeaning(values: seq<int>, order: seq<int>, entity: int)
    requires SortedByFrequency(order, Frequencies(values))
    requires forall k :: k in Frequencies(values) ==> k in order
    ensures var top := TopCandidates(order, Frequencies(values), |values|);
      top.Valid() &&
      (entity in top.values <==> entity in values && Passes(Occurrences(values, entity), |values|)) &&
      (entity in top.values ==> top.values[entity] == Occurrences(values, entity))
    ensures TopPrefix(order, Frequencies(values), |values|) == [] <==>
      forall v :: v in values ==> !Passes(Occurrences(values, v), |values|)
  {
    var freq := Frequencies(values);
    var kept := TopPrefix(order, freq, |values|);
    TopPrefixMeaning(order, freq, |values|, entity);
    if kept != [] {
      TopPrefixMeaning(order, freq, |values|, kept[0]);
      assert kept[0] in kept;
    }
    if exists v :: v in values && Passes(Occurrences(values, v), |values|) {
      var v :| v in values && Passes(Occurrences(values, v), |values|);
      TopPrefixMeaning(order, freq, |values|, v);
    }
  }
}
