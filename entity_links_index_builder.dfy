/**
 * The job that builds the inlink records. For an article whose title is known, the mapper
 * emits the page's id under key (target, 1) for every link whose target resolves to a
 * title, then the number of such links under key (page, 0). Both keys of an entity go to
 * the same reducer, and (e, 0) sorts before (e, 1), so the reducer keeps the link count of
 * e's own page in a field and writes it into e's record: the number of links to e, and each
 * linking entity, in ascending order, with the number of its links to e.
 */
module EntityLinksIndexBuilders {
  import opened Wrappers
  import opened JavaLang
  import opened FrequencyMaps
  import opened WikiPages
  import opened EntityLinksEntries

  /** PairOfInts(entity, kind): kind 0 carries a page's link count, kind 1 a linking page's id. */
  datatype LinkKey = LinkKey(entity: int, kind: int)

  const LINK_COUNT_KIND: int := 0
  const LINKER_KIND: int := 1

  // ---------------------------------------------------------------------------
  // Map.

  /** What one link contributes: its target's title id, unless the target is not a title. */
  function TargetEmit(env: Environment, link: WikiLink): Result<seq<int>>
  {
    var toId :- TargetId(env, link);
    Ok(if toId != NOT_CANONICAL_TITLE then [toId] else [])
  }

  function TargetEmitter(env: Environment): WikiLink -> Result<seq<int>>
  {
    link => TargetEmit(env, link)
  }

  /** The title ids the links resolve to, in link order; a target that cannot be processed fails the page. */
  function ResolvedTargets(env: Environment, links: seq<WikiLink>): Result<seq<int>>
  {
    EmitEach(links, TargetEmitter(env))
  }

  /** (target, 1) -> fromId for each resolved target, in order. */
  function LinkerPairs(targets: seq<int>, fromId: int): (r: seq<(LinkKey, int)>)
    ensures |r| == |targets|
    ensures forall i :: 0 <= i < |targets| ==> r[i] == (LinkKey(targets[i], LINKER_KIND), fromId)
  {
    seq(|targets|, i requires 0 <= i < |targets| => (LinkKey(targets[i], LINKER_KIND), fromId))
  }

  /**
   * The pairs a page emits: none for a page that is not an article or whose title is not
   * known; otherwise one linker pair per resolved target, then (page, 0) -> their number.
   */
  function PageEmits(page: Page, env: Environment): Result<seq<(LinkKey, int)>>
  {
    var fromId := TitleId(env.titles, page.title);
    if !page.isArticle || fromId == NOT_CANONICAL_TITLE then Ok([])
    else
      var targets :- ResolvedTargets(env, page.links);
      Ok(LinkerPairs(targets, fromId) + [(LinkKey(fromId, LINK_COUNT_KIND), |targets|)])
  }

  /** Map.map: the emitted pairs, and the link count that feeds the counters. */
  method MapPage(page: Page, env: Environment) returns (r: Result<seq<(LinkKey, int)>>, nlinks: int)
    ensures r == PageEmits(page, env)
    ensures r.Ok? && |r.value| > 0 ==> nlinks == |r.value| - 1
  {
    nlinks := 0;
    if !page.isArticle {
      return Ok([]), nlinks;
    }
    var fromId := TitleId(env.titles, page.title);
    if fromId == NOT_CANONICAL_TITLE {
      return Ok([]), nlinks;
    }
    var links := page.links;
    var emits := [];
    ghost var targets := [];
    for k := 0 to |links|
      invariant ResolvedTargets(env, links[..k]) == Ok(targets)
      invariant emits == LinkerPairs(targets, fromId) && nlinks == |targets|
    {
      EmitEachStep(links, TargetEmitter(env), k);
      var target := TargetId(env, links[k]);
      if target.Err? {
        EmitEachFailure(links, TargetEmitter(env), k + 1);
        return Err(target.error), nlinks;
      }
      var toId := target.value;
      if toId != NOT_CANONICAL_TITLE {
        emits := emits + [(LinkKey(toId, LINKER_KIND), fromId)];
        nlinks := nlinks + 1;
        targets := targets + [toId];
      } else {
        assert TargetEmit(env, links[k]) == Ok([]);
        assert targets + [] == targets;
      }
    }
    assert links[..|links|] == links;
    r := Ok(emits + [(LinkKey(fromId, LINK_COUNT_KIND), nlinks)]);
  }

  /** The division of Java ints, which truncates toward zero. */
  function JavaDiv(x: int, d: int): (r: int)
    requires d > 0
    ensures x >= 0 ==> 0 <= x - r * d < d
    ensures x < 0 ==> -d < x - r * d <= 0
  {
    if x >= 0 then x / d else -((-x) / d)
  }

  /** The PAIRS_TOTAL increment: nlinks * (nlinks - 1) / 2 in 32-bit int arithmetic. */
  function PairsIncrement(nlinks: int): (r: int)
    ensures IsInt32(r)
  {
    JavaDiv(Wrap32(nlinks * Wrap32(nlinks - 1)), 2)
  }

  // ---------------------------------------------------------------------------
  // Partitioner.

  /**
   * getPartition: the key's entity with the sign bit cleared, modulo the number of reduce
   * tasks (Java's remainder, which for a non-negative dividend is the remainder of the
   * divisor's absolute value); no reduce tasks divide by zero.
   */
  function Partition(key: LinkKey, numReduceTasks: int): (r: Result<int>)
    requires IsInt32(key.entity)
    ensures r.Err? <==> numReduceTasks == 0
    ensures r.Err? ==> r.error == Arithmetic
    ensures r.Ok? ==> 0 <= r.value < (if numReduceTasks < 0 then -numReduceTasks else numReduceTasks)
  {
    if numReduceTasks == 0 then Err(Arithmetic)
    else
      var masked := if key.entity >= 0 then key.entity else key.entity - INT_MIN;
      Ok(masked % (if numReduceTasks < 0 then -numReduceTasks else numReduceTasks))
  }

  // ---------------------------------------------------------------------------
  // Reduce.

  /** The links of a record: each entity of `entities` with its number of occurrences among the values. */
  function LinksOf(entities: seq<int>, values: seq<int>): (r: seq<Link>)
    ensures |r| == |entities|
    ensures forall i :: 0 <= i < |entities| ==> r[i] == Link(entities[i], Occurrences(values, entities[i]))
  {
    seq(|entities|, i requires 0 <= i < |entities| => Link(entities[i], Occurrences(values, entities[i])))
  }

  /** The record written for an entity: the number of links to it, the carried link count, and its linkers. */
  function InlinksRecord(values: seq<int>, noLinks: int): LinksRecord
  {
    LinksRecord(|values|, noLinks, LinksOf(TreeSetOf(values), values))
  }

  class EntityLinksReducer {
    /** The link count of the last (e, 0) key seen; -1 before any. */
    var noLinks: int

    constructor ()
      ensures noLinks == -1
    {
      noLinks := -1;
    }

    /**
     * Reduce.reduce. A link count key stores its first value and emits nothing (an empty
     * value list throws); any other key emits (entity, record) with the stored link count.
     * `keyOrder` is the order in which the counted map's key set iterates.
     */
    method Reduce(key: LinkKey, values: seq<int>, keyOrder: seq<int>) returns (r: Result<Option<(int, EntityLinksEntry)>>)
      requires forall x :: x in keyOrder <==> x in Frequencies(values)
      modifies this
      ensures key.kind == LINK_COUNT_KIND && values == [] ==> r == Err(NoSuchElement) && noLinks == old(noLinks)
      ensures key.kind == LINK_COUNT_KIND && values != [] ==> r == Ok(None) && noLinks == values[0]
      ensures key.kind != LINK_COUNT_KIND ==> noLinks == old(noLinks) && r.Ok? && r.value.Some?
      ensures key.kind != LINK_COUNT_KIND ==>
        r.value.value.0 == key.entity && fresh(r.value.value.1) && r.value.value.1.Record() == InlinksRecord(values, old(noLinks))
    {
      if key.kind == LINK_COUNT_KIND {
        if values == [] {
          return Err(NoSuchElement);
        }
        noLinks := values[0];
        return Ok(None);
      }
      var frequencyMap, totalFrequency := CountValues(values);
      var outputValue := new EntityLinksEntry();
      outputValue.SetTotalFrequency(totalFrequency);
      outputValue.SetNoLinks(noLinks);
      var entities := SortedDistinct(keyOrder);
      AscendingUnique(entities, TreeSetOf(values));
      AddEntries(outputValue, entities, frequencyMap, values);
      r := Ok(Some((key.entity, outputValue)));
    }
  }

  /** The loop that adds each entity with its count, in the TreeSet's order. */
  method AddEntries(outputValue: EntityLinksEntry, entities: seq<int>, frequencyMap: map<int, int>, ghost values: seq<int>)
    requires frequencyMap == Frequencies(values)
    requires forall i :: 0 <= i < |entities| ==> entities[i] in values
    modifies outputValue
    ensures outputValue.Record() == old(outputValue.Record()).(links := old(outputValue.links) + LinksOf(entities, values))
  {
    for i := 0 to |entities|
      invariant outputValue.Record() == old(outputValue.Record()).(links := old(outputValue.links) + LinksOf(entities[..i], values))
    {
      assert LinksOf(entities[..i + 1], values) == LinksOf(entities[..i], values) + [Link(entities[i], Occurrences(values, entities[i]))];
      outputValue.AddEntry(entities[i], frequencyMap[entities[i]]);
    }
    assert entities[..|entities|] == entities;
  }

  // ---------------------------------------------------------------------------
  // Properties.

  /**
   * On a page that does not fail, every link's target was processed; the resolved targets
   * are exactly the title ids some link's target resolves to.
   */
  lemma ResolvedTargetsMeaning(env: Environment, links: seq<WikiLink>, t: int)
    requires ResolvedTargets(env, links).Ok?
    ensures forall k :: 0 <= k < |links| ==> TargetId(env, links[k]).Ok?
    ensures t in ResolvedTargets(env, links).value <==>
      t != NOT_CANONICAL_TITLE && exists k :: 0 <= k < |links| && TargetId(env, links[k]) == Ok(t)
  {
    EmitEachMeaning(links, TargetEmitter(env), t);
    forall k | 0 <= k < |links|
      ensures TargetId(env, links[k]).Ok?
      ensures t in TargetEmitter(env)(links[k]).value <==> t != NOT_CANONICAL_TITLE && TargetId(env, links[k]) == Ok(t)
    {
      assert TargetEmitter(env)(links[k]) == TargetEmit(env, links[k]);
    }
  }

  /**
   * A page that emits anything emits its linker pairs, each carrying the page's own id, then
   * its link count, which is the number of linker pairs before it.
   */
  lemma PageEmitsMeaning(page: Page, env: Environment)
    requires PageEmits(page, env).Ok? && PageEmits(page, env).value != []
    ensures var emits := PageEmits(page, env).value;
      var fromId := TitleId(env.titles, page.title);
      page.isArticle && fromId != NOT_CANONICAL_TITLE &&
      emits[|emits| - 1] == (LinkKey(fromId, LINK_COUNT_KIND), |emits| - 1) &&
      forall i :: 0 <= i < |emits| - 1 ==> emits[i].0.kind == LINKER_KIND && emits[i].1 == fromId
  {
  }

  /** The link count key of an entity sorts before its linker keys, and both go to the same reducer. */
  lemma CountKeyComesFirst(e: int, numReduceTasks: int)
    requires IsInt32(e)
    ensures LINK_COUNT_KIND < LINKER_KIND
    ensures Partition(LinkKey(e, LINK_COUNT_KIND), numReduceTasks) == Partition(LinkKey(e, LINKER_KIND), numReduceTasks)
  {
  }

  /**
   * Clearing the sign bit of a 32-bit int keeps its low 31 bits, so the partition is the low
   * 31 bits of the entity modulo the number of tasks: a non-negative entity goes to
   * entity % tasks, and entities whose low 31 bits agree go to the same reducer.
   */
  lemma PartitionIsLowBits(key: LinkKey, other: LinkKey, numReduceTasks: int)
    requires IsInt32(key.entity) && IsInt32(other.entity) && numReduceTasks != 0
    ensures var n := if numReduceTasks < 0 then -numReduceTasks else numReduceTasks;
      Partition(key, numReduceTasks).value == (key.entity % 0x8000_0000) % n &&
      (key.entity >= 0 ==> Partition(key, numReduceTasks).value == key.entity % n)
    ensures key.entity % 0x8000_0000 == other.entity % 0x8000_0000 ==>
      Partition(key, numReduceTasks) == Partition(other, numReduceTasks)
  {
    assert key.entity < 0 ==> key.entity % 0x8000_0000 == key.entity - INT_MIN;
    assert other.entity < 0 ==> other.entity % 0x8000_0000 == other.entity - INT_MIN;
  }

  /** The counter adds the exact number of link pairs while the product fits in an int. */
  lemma PairsIncrementExact(nlinks: int)
    requires 0 <= nlinks <= 46341
    ensures PairsIncrement(nlinks) == nlinks * (nlinks - 1) / 2
  {
    assert nlinks * (nlinks - 1) <= 46341 * 46340 by {
      if nlinks > 0 {
        assert nlinks * (nlinks - 1) <= 46341 * (nlinks - 1);
        assert 46341 * (nlinks - 1) <= 46341 * 46340;
      }
    }
    assert nlinks * (nlinks - 1) >= 0 by {
      if nlinks > 0 {
        assert nlinks * (nlinks - 1) >= 0 * (nlinks - 1);
      }
    }
  }

  function SumFrequencies(links: seq<Link>): int
  {
    if |links| == 0 then 0 else SumFrequencies(links[..|links| - 1]) + links[|links| - 1].frequency
  }

  lemma {:induction false} SumFrequenciesOf(entities: seq<int>, values: seq<int>)
    ensures SumFrequencies(LinksOf(entities, values)) == SumOccurrences(entities, values)
  {
    if |entities| > 0 {
      var init := entities[..|entities| - 1];
      SumFrequenciesOf(init, values);
      assert LinksOf(entities, values)[..|entities| - 1] == LinksOf(init, values);
    }
  }

  /**
   * A record lists every linking entity once, in ascending order, with the number of its
   * links; the frequencies add up to the record's total.
   */
  lemma InlinksRecordMeaning(values: seq<int>, noLinks: int, e: int)
    ensures var rec := InlinksRecord(values, noLinks);
      rec.totalFrequency == |values| && rec.noLinks == noLinks &&
      (forall i, j :: 0 <= i < j < |rec.links| ==> rec.links[i].entity < rec.links[j].entity) &&
      ((exists i :: 0 <= i < |rec.links| && rec.links[i].entity == e) <==> e in values) &&
      (forall i :: 0 <= i < |rec.links| ==> rec.links[i].frequency == Occurrences(values, rec.links[i].entity)) &&
      SumFrequencies(rec.links) == rec.totalFrequency
  {
    var entities := TreeSetOf(values);
    var rec := InlinksRecord(values, noLinks);
    if e in values {
      var i :| 0 <= i < |entities| && entities[i] == e;
      assert rec.links[i].entity == e;
    }
    SumFrequenciesOf(entities, values);
    AscendingDistinct(entities);
    SumOccurrencesAll(entities, values);
  }
}
