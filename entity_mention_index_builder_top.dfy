/**
 * The job that builds two indexes in one pass. For each link of an article the mapper emits
 * the anchor with the target's title id under key (1, anchor), and the linking page's id
 * under key (2, target id). The reducer writes, for an anchor, its candidate entities most
 * frequent first down to two percent of its links, to the "mention" output; for an entity,
 * the ascending ids of the pages linking to it, to the "to" output.
 */
module EntityMentionIndexBuilderTop {
  import opened Wrappers
  import opened JavaLang
  import opened Normalizers
  import opened FrequencyMaps
  import opened WikiPages
  import MentionIndexes

  /** PairOfIntString: which index the pair feeds, and the anchor text or the target id's text. */
  datatype Key = Key(left: int, right: string)

  const MENTION_KEY: int := 1
  const ENTITY_KEY: int := 2

  const MENTION_INDEX: string := "mention"
  const ENTITY_ENTITY_INDEX: string := "to"

  /** The separator of both outputs' lists. */
  const SEPARATOR: char := '\t'

  // ---------------------------------------------------------------------------
  // Map.

  /**
   * What a link to the title id toId with the normalised anchor `anchor` emits from the page
   * fromId: (1, anchor) -> toId when the target is a title and the anchor is not blank;
   * (2, toId's text) -> fromId when both the target and the page are titles.
   */
  function Emits(toId: int, anchor: string, fromId: int): seq<(Key, int)>
  {
    (if toId != NOT_CANONICAL_TITLE && IsNotBlank(anchor) then [(Key(MENTION_KEY, anchor), toId)] else []) +
    (if toId != NOT_CANONICAL_TITLE && fromId != NOT_CANONICAL_TITLE then [(Key(ENTITY_KEY, IntToString(toId)), fromId)] else [])
  }

  /** What one link of the page fromId emits; a target that cannot be processed throws. */
  function LinkEmit(env: Environment, fromId: int, link: WikiLink): Result<seq<(Key, int)>>
  {
    var toId :- TargetId(env, link);
    Ok(Emits(toId, AnchorText(env, link), fromId))
  }

  function Emitter(env: Environment, fromId: int): WikiLink -> Result<seq<(Key, int)>>
  {
    link => LinkEmit(env, fromId, link)
  }

  /** The pairs a page emits: none for a page that is not an article, else those of its links in order. */
  function PageEmits(page: Page, env: Environment): Result<seq<(Key, int)>>
  {
    if !page.isArticle then Ok([])
    else EmitEach(page.links, Emitter(env, TitleId(env.titles, page.title)))
  }

  /** Map.map. */
  method MapPage(page: Page, env: Environment) returns (r: Result<seq<(Key, int)>>)
    ensures r == PageEmits(page, env)
  {
    if !page.isArticle {
      return Ok([]);
    }
    var fromId := TitleId(env.titles, page.title);
    var links := page.links;
    var emits := [];
    for k := 0 to |links|
      invariant EmitEach(links[..k], Emitter(env, fromId)) == Ok(emits)
    {
      EmitEachStep(links, Emitter(env, fromId), k);
      var emitted := ProcessLink(env, fromId, links[k]);
      if emitted.Err? {
        EmitEachFailure(links, Emitter(env, fromId), k + 1);
        return Err(emitted.error);
      }
      emits := emits + emitted.value;
    }
    assert links[..|links|] == links;
    return Ok(emits);
  }

  /** The body of the loop over the links. */
  method ProcessLink(env: Environment, fromId: int, link: WikiLink) returns (r: Result<seq<(Key, int)>>)
    ensures r == LinkEmit(env, fromId, link)
  {
    var normalizedAnchorText := Normalize(link.anchorText, env.unescape, env.stripMarkup);
    var target := TargetId(env, link);
    if target.Err? {
      return Err(target.error);
    }
    var toId := target.value;
    var mention := [];
    if toId != NOT_CANONICAL_TITLE && IsNotBlank(normalizedAnchorText) {
      mention := [(Key(MENTION_KEY, normalizedAnchorText), toId)];
    }
    var linker := [];
    if toId != NOT_CANONICAL_TITLE && fromId != NOT_CANONICAL_TITLE {
      linker := [(Key(ENTITY_KEY, IntToString(toId)), fromId)];
    }
    r := Ok(mention + linker);
  }

  /**
   * The two rules: the non-blank anchor of a link to a title, mapped to the title's id; the
   * id of a title linked from a page that is a title, mapped to the page's id.
   */
  predicate Emitted(toId: int, anchor: string, fromId: int, e: (Key, int))
  {
    toId != NOT_CANONICAL_TITLE &&
    ((e == (Key(MENTION_KEY, anchor), toId) && IsNotBlank(anchor)) ||
     (e == (Key(ENTITY_KEY, IntToString(toId)), fromId) && fromId != NOT_CANONICAL_TITLE))
  }

  /** A link emits exactly the pairs of the two rules, at most one by each. */
  lemma EmitsMeaning(toId: int, anchor: string, fromId: int, e: (Key, int))
    ensures e in Emits(toId, anchor, fromId) <==> Emitted(toId, anchor, fromId, e)
    ensures |Emits(toId, anchor, fromId)| <= 2
  {
  }

  /**
   * On a page that does not fail, every link's target was processed, and a pair is emitted
   * exactly when some link gives it by one of the two rules, with its resolved target and its
   * normalised anchor, and the page's own title id as the linking id.
   */
  lemma PageEmitsMeaning(page: Page, env: Environment, e: (Key, int))
    requires PageEmits(page, env).Ok?
    ensures !page.isArticle ==> PageEmits(page, env).value == []
    ensures page.isArticle ==> forall k :: 0 <= k < |page.links| ==> TargetId(env, page.links[k]).Ok?
    ensures page.isArticle ==>
      var fromId := TitleId(env.titles, page.title);
      (e in PageEmits(page, env).value <==>
        exists k :: 0 <= k < |page.links| &&
          Emitted(TargetId(env, page.links[k]).value, AnchorText(env, page.links[k]), fromId, e))
  {
    if page.isArticle {
      var fromId := TitleId(env.titles, page.title);
      var links := page.links;
      EmitEachMeaning(links, Emitter(env, fromId), e);
      forall k | 0 <= k < |links|
        ensures TargetId(env, links[k]).Ok?
        ensures e in Emitter(env, fromId)(links[k]).value <==>
          Emitted(TargetId(env, links[k]).value, AnchorText(env, links[k]), fromId, e)
      {
        var emitted := Emitter(env, fromId)(links[k]);
        assert emitted == LinkEmit(env, fromId, links[k]);
        var toId := TargetId(env, links[k]);
        assert toId.Ok? && emitted.value == Emits(toId.value, AnchorText(env, links[k]), fromId);
        EmitsMeaning(toId.value, AnchorText(env, links[k]), fromId, e);
      }
    }
  }

  // ---------------------------------------------------------------------------
  // Reduce.

  /** What the reducer writes: the output file, the key text and the value text. */
  datatype Output = Output(file: string, key: string, value: string)

  /** getOutputFile: key 1 goes to the mention index, key 2 to the entity index, any other key throws. */
  function OutputFile(left: int): (r: Result<string>)
    ensures r.Ok? <==> left == MENTION_KEY || left == ENTITY_KEY
    ensures r.Err? ==> r.error == IllegalArgument
    ensures r.Ok? && left == MENTION_KEY ==> r.value != ENTITY_ENTITY_INDEX
    ensures r.Ok? && left == ENTITY_KEY ==> r.value != MENTION_INDEX
  {
    if left == MENTION_KEY then Ok(MENTION_INDEX)
    else if left == ENTITY_KEY then Ok(ENTITY_ENTITY_INDEX)
    else Err(IllegalArgument)
  }

  /** The ids written as one line of decimal texts separated by SEPARATOR. */
  function IdsText(ids: seq<int>): string
  {
    Join(MentionIndexes.IntTexts(ids), [SEPARATOR])
  }

  /** The candidates of an anchor: the entities before the first one below the cutoff, in `order`. */
  function Candidates(values: seq<int>, order: seq<int>): seq<int>
  {
    TopPrefix(order, Frequencies(values), |values|)
  }

  /**
   * What reducing one key gives: nothing for an anchor without candidates; the candidates of
   * an anchor, or the distinct ascending values of any other key, written under the key's
   * text to the file getOutputFile names.
   */
  function ReduceOutput(key: Key, values: seq<int>, order: seq<int>): Result<Option<Output>>
  {
    if key.left == MENTION_KEY && Candidates(values, order) == [] then Ok(None)
    else
      var text := if key.left == MENTION_KEY then IdsText(Candidates(values, order)) else IdsText(TreeSetOf(values));
      var file :- OutputFile(key.left);
      Ok(Some(Output(file, key.right, text)))
  }

  /**
   * Reduce.reduce. For an anchor, `order` is getEntriesSortedByValue of the counted map, so
   * every entity in it was counted.
   */
  method Reduce(key: Key, values: seq<int>, order: seq<int>) returns (r: Result<Option<Output>>)
    requires key.left == MENTION_KEY ==> forall i :: 0 <= i < |order| ==> order[i] in Frequencies(values)
    ensures r == ReduceOutput(key, values, order)
  {
    var text;
    if key.left == MENTION_KEY {
      var frequencyMap, total := CountValues(values);
      var candidates := TakeTop(order, frequencyMap, total);
      if |candidates| == 0 {
        return Ok(None);
      }
      text := IdsText(candidates);
    } else {
      var valuesSet := SortedDistinct(values);
      text := IdsText(valuesSet);
    }
    var outputFile := OutputFile(key.left);
    if outputFile.Err? {
      return Err(outputFile.error);
    }
    r := Ok(Some(Output(outputFile.value, key.right, text)));
  }

  // ---------------------------------------------------------------------------
  // Properties.

  function PageEmitter(env: Environment): Page -> Result<seq<(Key, int)>>
  {
    page => PageEmits(page, env)
  }

  /** What the map phase emits over all pages, page after page; a page that throws fails the job. */
  function JobEmits(pages: seq<Page>, env: Environment): Result<seq<(Key, int)>>
  {
    EmitEach(pages, PageEmitter(env))
  }

  /**
   * The page is an article with a title id v, and one of its links has a processed target
   * whose title id is written `name`.
   */
  predicate LinksTo(page: Page, env: Environment, name: string, v: int)
  {
    page.isArticle && v == TitleId(env.titles, page.title) && v != NOT_CANONICAL_TITLE &&
    exists k :: 0 <= k < |page.links| && TargetId(env, page.links[k]).Ok? &&
      TargetId(env, page.links[k]).value != NOT_CANONICAL_TITLE && IntToString(TargetId(env, page.links[k]).value) == name
  }

  /** Every key the mapper emits is a key the reducer accepts. */
  lemma EmittedKeysAccepted(page: Page, env: Environment, e: (Key, int), values: seq<int>, order: seq<int>)
    requires PageEmits(page, env).Ok? && e in PageEmits(page, env).value
    ensures ReduceOutput(e.0, values, order).Ok?
  {
    PageEmitsMeaning(page, env, e);
    if page.isArticle {
      var k :| 0 <= k < |page.links| &&
        Emitted(TargetId(env, page.links[k]).value, AnchorText(env, page.links[k]), TitleId(env.titles, page.title), e);
    }
  }

  /**
   * With `order` sorted by frequency and holding every counted entity, an anchor's candidates
   * are exactly the entities it links to at least |values| * 0.02 times, each once, most
   * frequent first; the anchor is dropped exactly when no entity reaches the cutoff.
   */
  lemma CandidatesMeaning(values: seq<int>, order: seq<int>, entity: int)
    requires SortedByFrequency(order, Frequencies(values))
    requires forall k :: k in Frequencies(values) ==> k in order
    ensures entity in Candidates(values, order) <==> entity in values && Passes(Occurrences(values, entity), |values|)
    ensures var c := Candidates(values, order);
      forall i, j :: 0 <= i < j < |c| ==> c[i] != c[j] && Occurrences(values, c[i]) >= Occurrences(values, c[j])
    ensures Candidates(values, order) == [] <==> forall v :: v in values ==> !Passes(Occurrences(values, v), |values|)
  {
    var freq := Frequencies(values);
    var c := Candidates(values, order);
    TopPrefixMeaning(order, freq, |values|, entity);
    forall i, j | 0 <= i < j < |c|
      ensures c[i] != c[j] && Occurrences(values, c[i]) >= Occurrences(values, c[j])
    {
      assert c[i] == order[i] && c[j] == order[j];
    }
    if c != [] {
      TopPrefixMeaning(order, freq, |values|, c[0]);
      assert c[0] in c;
    }
    if exists v :: v in values && Passes(Occurrences(values, v), |values|) {
      var v :| v in values && Passes(Occurrences(values, v), |values|);
      TopPrefixMeaning(order, freq, |values|, v);
    }
  }

  /**
   * Over the pages of a job, the line written for an entity lists, once each and in
   * ascending order, exactly the title ids of the articles with a link to that entity.
   */
  lemma LinkersMeaning(pages: seq<Page>, env: Environment, name: string, order: seq<int>, v: int)
    requires JobEmits(pages, env).Ok?
    ensures var values := ValuesFor(JobEmits(pages, env).value, Key(ENTITY_KEY, name));
      ReduceOutput(Key(ENTITY_KEY, name), values, order) ==
        Ok(Some(Output(ENTITY_ENTITY_INDEX, name, IdsText(TreeSetOf(values))))) &&
      StrictlyAscending(TreeSetOf(values)) &&
      (v in TreeSetOf(values) <==> exists p :: 0 <= p < |pages| && LinksTo(pages[p], env, name, v))
  {
    var key := Key(ENTITY_KEY, name);
    var emits := JobEmits(pages, env).value;
    ValuesForMeaning(emits, key, v);
    EmitEachMeaning(pages, PageEmitter(env), (key, v));
    forall p | 0 <= p < |pages|
      ensures (key, v) in PageEmitter(env)(pages[p]).value <==> LinksTo(pages[p], env, name, v)
    {
      assert PageEmitter(env)(pages[p]) == PageEmits(pages[p], env);
      PageEmitsMeaning(pages[p], env, (key, v));
    }
  }

  /** Splitting a written list on SEPARATOR and parsing each field gives back the ids. */
  lemma IdsTextParsesBack(ids: seq<int>)
    requires forall i :: 0 <= i < |ids| ==> IsInt32(ids[i])
    ensures MentionIndexes.ParseInts(Split(IdsText(ids), {SEPARATOR})) == Ok(ids)
  {
    var parts := MentionIndexes.IntTexts(ids);
    forall i | 0 <= i < |parts|
      ensures |parts[i]| > 0 && NoneIn(parts[i], {SEPARATOR})
    {
      IntToStringHasNo(ids[i], SEPARATOR);
    }
    SplitJoin(parts, SEPARATOR, {SEPARATOR});
    MentionIndexes.ParseIntTexts(ids);
  }

  /**
   * Whatever the reducer writes reads back: the value line of an anchor splits and parses to
   * its candidates, and that of an entity to its distinct linkers in ascending order.
   */
  lemma ReduceOutputReadsBack(key: Key, values: seq<int>, order: seq<int>)
    requires forall i :: 0 <= i < |values| ==> IsInt32(values[i])
    requires ReduceOutput(key, values, order).Ok? && ReduceOutput(key, values, order).value.Some?
    ensures var out := ReduceOutput(key, values, order).value.value;
      out.key == key.right &&
      MentionIndexes.ParseInts(Split(out.value, {SEPARATOR})) ==
        Ok(if key.left == MENTION_KEY then Candidates(values, order) else TreeSetOf(values))
  {
    var ids := if key.left == MENTION_KEY then Candidates(values, order) else TreeSetOf(values);
    forall i | 0 <= i < |ids|
      ensures IsInt32(ids[i])
    {
      assert ids[i] in values by {
        assert ids[i] in ids;
      }
    }
    IdsTextParsesBack(ids);
  }
}
