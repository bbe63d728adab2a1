/**
 * The job that counts, for every anchor text, how many times it occurs as a link and how
 * many times it occurs at all. The mapper finds the anchor texts among the n-grams of up to
 * eleven tokens of an article, emits (1, 1) for each link whose anchor is an anchor text and
 * (0, 1) once for each other anchor text found; the reducer, also used as the combiner, adds
 * the pairs up.
 */
module KeyphrasenessIndexBuilders {
  import opened Wrappers
  import opened JavaLang
  import opened Tokens
  import opened Ngrams
  import opened MentionDetection
  import opened Normalizers
  import opened WikiPages

  /** A PairOfInts(linked, total). */
  datatype Counts = Counts(linked: int, total: int)

  /** The tokens of a page: the whitespace fields of its normalised text. */
  function Words(page: Page, env: Environment): seq<string>
  {
    Split(Normalized(Prepared(page.content, env.unescape, env.stripMarkup)), WHITESPACES)
  }

  /** The words as tokens, so that n-grams are built from them as mention detection builds them. */
  function AsTokens(words: seq<string>): (r: seq<Token>)
    ensures |r| == |words| && forall i :: 0 <= i < |r| ==> r[i].token == words[i]
  {
    seq(|words|, i requires 0 <= i < |words| => Token(words[i], 0, |words[i]|))
  }

  /** The anchor texts among the runs of 1 to NGRAM_SIZE consecutive words, each joined by single spaces. */
  function AnchorNgrams(words: seq<string>, anchors: set<string>): set<string>
  {
    set j: nat, i: nat | j <= i < |words| && i - j < NGRAM_SIZE && JoinRange(AsTokens(words), j, i) in anchors
      :: JoinRange(AsTokens(words), j, i)
  }

  /** The anchor texts among the gathered n-grams. */
  function InAnchors(ngrams: seq<NgramValue>, anchors: set<string>): set<string>
  {
    set q | 0 <= q < |ngrams| && ngrams[q].ngram in anchors :: ngrams[q].ngram
  }

  /** The gathered n-grams are exactly the runs of 1 to NGRAM_SIZE words, so both sets agree. */
  lemma GatheredAnchors(words: seq<string>, anchors: set<string>)
    ensures InAnchors(GatherSpec(AsTokens(words), NGRAM_SIZE), anchors) == AnchorNgrams(words, anchors)
  {
    var tokens := AsTokens(words);
    var gathered := GatherSpec(tokens, NGRAM_SIZE);
    forall s | s in InAnchors(gathered, anchors)
      ensures s in AnchorNgrams(words, anchors)
    {
      var q :| 0 <= q < |gathered| && gathered[q].ngram in anchors && gathered[q].ngram == s;
      var j, i := GatherSpecOnlySpans(tokens, NGRAM_SIZE, q);
      assert JoinRange(tokens, j, i) == s;
    }
    forall s | s in AnchorNgrams(words, anchors)
      ensures s in InAnchors(gathered, anchors)
    {
      var j: nat, i: nat :| j <= i < |words| && i - j < NGRAM_SIZE && JoinRange(tokens, j, i) in anchors && JoinRange(tokens, j, i) == s;
      GatherSpecHasSpan(tokens, NGRAM_SIZE, j, i);
      var q := Position(j, i, NGRAM_SIZE);
      assert gathered[q].ngram == s;
    }
  }

  /**
   * The n-gram loops of Map.map: the circular buffer of NGRAM_SIZE n-grams yields every run
   * of 1 to NGRAM_SIZE words, and those that are anchor texts go into the set.
   */
  method AnchorNgramSet(words: seq<string>, anchors: set<string>) returns (ngramsSet: set<string>)
    ensures ngramsSet == AnchorNgrams(words, anchors)
    ensures ngramsSet <= anchors
  {
    var gathered := GatherNgrams(AsTokens(words), NGRAM_SIZE);
    var ngrams := gathered.value;
    ngramsSet := {};
    for p := 0 to |ngrams|
      invariant ngramsSet == InAnchors(ngrams[..p], anchors)
    {
      assert forall q :: 0 <= q < p ==> ngrams[..p + 1][q] == ngrams[..p][q];
      if ngrams[p].ngram in anchors {
        ngramsSet := ngramsSet + {ngrams[p].ngram};
      }
    }
    assert ngrams[..|ngrams|] == ngrams;
    GatheredAnchors(words, anchors);
  }

  /** The (anchor, (1, 1)) emitted for each link whose normalised anchor is an anchor text, in link order. */
  function LinkedEmits(links: seq<WikiLink>, env: Environment, anchors: set<string>): seq<(string, Counts)>
  {
    if |links| == 0 then []
    else
      var anchor := AnchorText(env, links[|links| - 1]);
      LinkedEmits(links[..|links| - 1], env, anchors) + (if anchor in anchors then [(anchor, Counts(1, 1))] else [])
  }

  /** The normalised anchors of the links that are anchor texts. */
  function LinkedAnchors(links: seq<WikiLink>, env: Environment, anchors: set<string>): set<string>
  {
    if |links| == 0 then {}
    else
      var anchor := AnchorText(env, links[|links| - 1]);
      LinkedAnchors(links[..|links| - 1], env, anchors) + (if anchor in anchors then {anchor} else {})
  }

  /** The anchor texts of a page that none of its links uses. */
  function Unlinked(page: Page, env: Environment, anchors: set<string>): set<string>
  {
    AnchorNgrams(Words(page, env), anchors) - LinkedAnchors(page.links, env, anchors)
  }

  /**
   * Map.map: nothing for a page that is not an article. For an article, the linked anchors
   * first, one (1, 1) per link, then each remaining anchor text of the page once with (0, 1),
   * in the set's iteration order.
   */
  method MapPage(page: Page, env: Environment, anchors: set<string>) returns (emits: seq<(string, Counts)>)
    ensures !page.isArticle ==> emits == []
    ensures page.isArticle ==>
      var linked := LinkedEmits(page.links, env, anchors);
      |linked| <= |emits| && emits[..|linked|] == linked &&
      forall m :: ValuesFor(emits[|linked|..], m) == if m in Unlinked(page, env, anchors) then [Counts(0, 1)] else []
    ensures forall i :: 0 <= i < |emits| ==> emits[i].0 in anchors && 0 <= emits[i].1.linked <= emits[i].1.total == 1
  {
    emits := [];
    if !page.isArticle {
      return;
    }
    var normalizedContent := Normalize(page.content, env.unescape, env.stripMarkup);
    var tokens := Split(normalizedContent, WHITESPACES);
    var ngramsSet := AnchorNgramSet(tokens, anchors);
    var linked, remaining := EmitLinks(page.links, env, anchors, ngramsSet);
    var unlinked := EmitRemaining(remaining);
    emits := linked + unlinked;
    assert emits[|linked|..] == unlinked;
  }

  /** The loop over the links: each link whose normalised anchor is an anchor text emits (1, 1) and takes its anchor out of the set. */
  method EmitLinks(links: seq<WikiLink>, env: Environment, anchors: set<string>, ngramsSet0: set<string>)
    returns (emits: seq<(string, Counts)>, ngramsSet: set<string>)
    ensures emits == LinkedEmits(links, env, anchors)
    ensures ngramsSet == ngramsSet0 - LinkedAnchors(links, env, anchors)
    ensures forall i :: 0 <= i < |emits| ==> emits[i].0 in anchors && emits[i].1 == Counts(1, 1)
  {
    emits, ngramsSet := [], ngramsSet0;
    for k := 0 to |links|
      invariant emits == LinkedEmits(links[..k], env, anchors)
      invariant ngramsSet == ngramsSet0 - LinkedAnchors(links[..k], env, anchors)
      invariant forall i :: 0 <= i < |emits| ==> emits[i].0 in anchors && emits[i].1 == Counts(1, 1)
    {
      assert links[..k + 1][..k] == links[..k];
      var normalizedAnchorText := Normalize(links[k].anchorText, env.unescape, env.stripMarkup);
      if normalizedAnchorText in anchors {
        emits := emits + [(normalizedAnchorText, Counts(1, 1))];
        ngramsSet := ngramsSet - {normalizedAnchorText};
      }
    }
    assert links[..|links|] == links;
  }

  /** The loop over the remaining set: each member emits (0, 1) once, in the set's iteration order. */
  method EmitRemaining(ngramsSet: set<string>) returns (unlinked: seq<(string, Counts)>)
    ensures forall m :: ValuesFor(unlinked, m) == if m in ngramsSet then [Counts(0, 1)] else []
    ensures forall i :: 0 <= i < |unlinked| ==> unlinked[i].0 in ngramsSet && unlinked[i].1 == Counts(0, 1)
  {
    var rest := ngramsSet;
    unlinked := [];
    while rest != {}
      invariant rest <= ngramsSet
      invariant forall m :: ValuesFor(unlinked, m) == if m in ngramsSet - rest then [Counts(0, 1)] else []
      invariant forall i :: 0 <= i < |unlinked| ==> unlinked[i].0 in ngramsSet && unlinked[i].1 == Counts(0, 1)
      decreases |rest|
    {
      var mention :| mention in rest;
      forall m
        ensures ValuesFor(unlinked + [(mention, Counts(0, 1))], m) == if m in ngramsSet - (rest - {mention}) then [Counts(0, 1)] else []
      {
        ValuesForSnoc(unlinked, (mention, Counts(0, 1)), m);
      }
      unlinked := unlinked + [(mention, Counts(0, 1))];
      rest := rest - {mention};
    }
  }

  /** The pairs added up component by component. */
  function SumCounts(values: seq<Counts>): Counts
  {
    if |values| == 0 then Counts(0, 0)
    else
      var before := SumCounts(values[..|values| - 1]);
      var last := values[|values| - 1];
      Counts(before.linked + last.linked, before.total + last.total)
  }

  /** Reduce.reduce: the linked and the total counts received for one anchor text, each added up. */
  method Reduce(values: seq<Counts>) returns (r: Counts)
    ensures r == SumCounts(values)
  {
    var total := 0;
    var linked := 0;
    for i := 0 to |values|
      invariant Counts(linked, total) == SumCounts(values[..i])
    {
      assert values[..i + 1][..i] == values[..i];
      linked := linked + values[i].linked;
      total := total + values[i].total;
    }
    assert values[..|values|] == values;
    r := Counts(linked, total);
  }

  // ---------------------------------------------------------------------------
  // Properties.

  lemma {:induction false} SumCountsConcat(a: seq<Counts>, b: seq<Counts>)
    ensures SumCounts(a + b) == Counts(SumCounts(a).linked + SumCounts(b).linked, SumCounts(a).total + SumCounts(b).total)
  {
    if |b| > 0 {
      SumCountsConcat(a, b[..|b| - 1]);
      assert (a + b)[..|a + b| - 1] == a + b[..|b| - 1];
    } else {
      assert a + b == a;
    }
  }

  function Flatten(groups: seq<seq<Counts>>): seq<Counts>
  {
    if |groups| == 0 then [] else Flatten(groups[..|groups| - 1]) + groups[|groups| - 1]
  }

  function Totals(groups: seq<seq<Counts>>): (r: seq<Counts>)
    ensures |r| == |groups|
  {
    if |groups| == 0 then [] else Totals(groups[..|groups| - 1]) + [SumCounts(groups[|groups| - 1])]
  }

  /** The reducer is a valid combiner: reducing the sums of any grouping of the pairs gives the sum of all of them. */
  lemma {:induction false} CombinerAgrees(groups: seq<seq<Counts>>)
    ensures SumCounts(Totals(groups)) == SumCounts(Flatten(groups))
  {
    if |groups| > 0 {
      var init := groups[..|groups| - 1];
      CombinerAgrees(init);
      var t := Totals(groups);
      assert t[..|t| - 1] == Totals(init);
      SumCountsConcat(Flatten(init), groups[|groups| - 1]);
    }
  }

  predicate LinkedAtMostTotal(values: seq<Counts>)
  {
    forall i :: 0 <= i < |values| ==> 0 <= values[i].linked <= values[i].total
  }

  /** Pairs whose linked count is at most their total reduce to such a pair, so the reduced counts keep linked <= total. */
  lemma {:induction false} ReducePreservesBound(values: seq<Counts>)
    requires LinkedAtMostTotal(values)
    ensures 0 <= SumCounts(values).linked <= SumCounts(values).total
  {
    if |values| > 0 {
      ReducePreservesBound(values[..|values| - 1]);
    }
  }

  /** There is one linked emission of an anchor text for each link that uses it. */
  lemma {:induction false} LinkedEmitsCount(links: seq<WikiLink>, env: Environment, anchors: set<string>, a: string)
    ensures |ValuesFor(LinkedEmits(links, env, anchors), a)| == |LinksWith(links, env, anchors, a)|
  {
    if |links| > 0 {
      var init := links[..|links| - 1];
      var k0 := |links| - 1;
      LinkedEmitsCount(init, env, anchors, a);
      var anchor := AnchorText(env, links[k0]);
      var e: seq<(string, Counts)> := if anchor in anchors then [(anchor, Counts(1, 1))] else [];
      ValuesForConcat(LinkedEmits(init, env, anchors), e, a);
      var added: set<int> := if anchor == a && a in anchors then {k0} else {};
      assert |ValuesFor(e, a)| == |added| by {
        ValuesForSnoc([], (anchor, Counts(1, 1)), a);
        assert anchor in anchors ==> [] + [(anchor, Counts(1, 1))] == e;
      }
      LinksWithStep(links, env, anchors, a);
    }
  }

  /** The indexes of the links whose normalised anchor is a, when a is an anchor text. */
  function LinksWith(links: seq<WikiLink>, env: Environment, anchors: set<string>, a: string): set<int>
  {
    set k | 0 <= k < |links| && a in anchors && AnchorText(env, links[k]) == a
  }

  lemma LinksWithStep(links: seq<WikiLink>, env: Environment, anchors: set<string>, a: string)
    requires |links| > 0
    ensures var k0 := |links| - 1;
      |LinksWith(links, env, anchors, a)| ==
      |LinksWith(links[..k0], env, anchors, a)| + (if a in anchors && AnchorText(env, links[k0]) == a then 1 else 0)
  {
    var k0 := |links| - 1;
    var init := links[..k0];
    var before := LinksWith(init, env, anchors, a);
    var added: set<int> := if a in anchors && AnchorText(env, links[k0]) == a then {k0} else {};
    forall k
      ensures k in LinksWith(links, env, anchors, a) <==> k in before + added
    {
      if 0 <= k < k0 {
        assert init[k] == links[k];
      }
    }
    assert LinksWith(links, env, anchors, a) == before + added;
    assert k0 !in before;
  }

  /** An anchor is taken out of the set exactly when it is an anchor text and some link uses it. */
  lemma {:induction false} LinkedAnchorsMeaning(links: seq<WikiLink>, env: Environment, anchors: set<string>, a: string)
    ensures a in LinkedAnchors(links, env, anchors) <==> a in anchors && exists k :: 0 <= k < |links| && AnchorText(env, links[k]) == a
  {
    if |links| > 0 {
      var init := links[..|links| - 1];
      LinkedAnchorsMeaning(init, env, anchors, a);
      if a in anchors && exists k :: 0 <= k < |links| && AnchorText(env, links[k]) == a {
        var k :| 0 <= k < |links| && AnchorText(env, links[k]) == a;
        if k < |init| {
          assert init[k] == links[k];
        }
      }
      if exists k :: 0 <= k < |init| && AnchorText(env, init[k]) == a {
        var k :| 0 <= k < |init| && AnchorText(env, init[k]) == a;
        assert links[k] == init[k];
      }
    }
  }
}
