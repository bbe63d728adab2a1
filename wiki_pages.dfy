/**
 * What the index-building mappers see of a Wikipedia page, and the per-link lookups they
 * share: the anchor text normalised as processAnchorText does, and the target resolved to a
 * title id through processTargetLink, the redirect index and the titles index.
 */
module WikiPages {
  import opened Wrappers
  import opened JavaLang
  import opened Normalizers

  datatype WikiLink = WikiLink(anchorText: string, target: string)

  datatype Page = Page(isArticle: bool, title: string, content: string, links: seq<WikiLink>)

  /**
   * The library functions and loaded indexes a mapper works with: the unescaping and markup
   * removal of normalize, the cleaning and URL decoding of processTargetLink, the redirect
   * index and the titles index.
   */
  datatype Environment = Environment(
    unescape: string -> string,
    stripMarkup: string -> string,
    unescapeAndStrip: string -> string,
    urlDecode: string -> Option<string>,
    redirects: map<string, string>,
    titles: map<string, int>)

  /** The id getTitleId gives a title that is not in the titles index. */
  const NOT_CANONICAL_TITLE: int := -1

  /** getCanonicalURL: the redirect target, or the input when it is not a redirect. */
  function CanonicalUrl(redirects: map<string, string>, input: string): string
  {
    if input in redirects then redirects[input] else input
  }

  /** getTitleId: the stored id, or NOT_CANONICAL_TITLE. */
  function TitleId(titles: map<string, int>, title: string): int
  {
    if title in titles then titles[title] else NOT_CANONICAL_TITLE
  }

  /** processAnchorText, which is normalize. */
  function AnchorText(env: Environment, link: WikiLink): string
  {
    Normalized(Prepared(link.anchorText, env.unescape, env.stripMarkup))
  }

  /** The title id of the link's target after cleaning and following a redirect. */
  function TargetId(env: Environment, link: WikiLink): Result<int>
  {
    var target :- ProcessTargetLink(link.target, env.unescapeAndStrip, env.urlDecode);
    Ok(TitleId(env.titles, CanonicalUrl(env.redirects, target)))
  }

  /** The values emitted under key k, in emission order. */
  function ValuesFor<K(==), V>(emits: seq<(K, V)>, k: K): seq<V>
  {
    if |emits| == 0 then []
    else
      var last := emits[|emits| - 1];
      ValuesFor(emits[..|emits| - 1], k) + (if last.0 == k then [last.1] else [])
  }

  lemma ValuesForSnoc<K, V>(emits: seq<(K, V)>, e: (K, V), k: K)
    ensures ValuesFor(emits + [e], k) == ValuesFor(emits, k) + (if e.0 == k then [e.1] else [])
  {
    assert (emits + [e])[..|emits|] == emits;
  }

  /** A value is grouped under k exactly when the pair (k, value) was emitted. */
  lemma {:induction false} ValuesForMeaning<K, V>(emits: seq<(K, V)>, k: K, v: V)
    ensures v in ValuesFor(emits, k) <==> (k, v) in emits
  {
    if |emits| > 0 {
      var init, last := emits[..|emits| - 1], emits[|emits| - 1];
      ValuesForMeaning(init, k, v);
      assert emits == init + [last];
    }
  }

  lemma {:induction false} ValuesForConcat<K, V>(a: seq<(K, V)>, b: seq<(K, V)>, k: K)
    ensures ValuesFor(a + b, k) == ValuesFor(a, k) + ValuesFor(b, k)
  {
    if |b| > 0 {
      var init := b[..|b| - 1];
      ValuesForConcat(a, init, k);
      assert (a + b)[..|a + b| - 1] == a + init;
    } else {
      assert a + b == a;
    }
  }

  /** The emissions of the items, one item after another; the first item that fails fails them all. */
  function EmitEach<T, E>(items: seq<T>, emit: T -> Result<seq<E>>): Result<seq<E>>
  {
    if |items| == 0 then Ok([])
    else
      var before :- EmitEach(items[..|items| - 1], emit);
      var last :- emit(items[|items| - 1]);
      Ok(before + last)
  }

  /** One more item: its emission follows the earlier ones, or its failure is the result. */
  lemma EmitEachStep<T, E>(items: seq<T>, emit: T -> Result<seq<E>>, k: nat)
    requires k < |items| && EmitEach(items[..k], emit).Ok?
    ensures EmitEach(items[..k + 1], emit) ==
      if emit(items[k]).Err? then Err(emit(items[k]).error)
      else Ok(EmitEach(items[..k], emit).value + emit(items[k]).value)
  {
    var t := items[..k + 1];
    assert t[..k] == items[..k] && t[k] == items[k];
  }

  /** A failure on a prefix is the failure of the whole. */
  lemma {:induction false} EmitEachFailure<T, E>(items: seq<T>, emit: T -> Result<seq<E>>, k: nat)
    requires k <= |items| && EmitEach(items[..k], emit).Err?
    ensures EmitEach(items, emit) == EmitEach(items[..k], emit)
    decreases |items| - k
  {
    if k < |items| {
      var init := items[..|items| - 1];
      assert init[..k] == items[..k];
      EmitEachFailure(init, emit, k);
    } else {
      assert items[..k] == items;
    }
  }

  /** When nothing fails, every item's emission succeeded, and the emitted values are exactly those of the items. */
  lemma {:induction false} EmitEachMeaning<T, E>(items: seq<T>, emit: T -> Result<seq<E>>, e: E)
    requires EmitEach(items, emit).Ok?
    ensures forall k :: 0 <= k < |items| ==> emit(items[k]).Ok?
    ensures e in EmitEach(items, emit).value <==> exists k :: 0 <= k < |items| && e in emit(items[k]).value
  {
    if |items| > 0 {
      var n := |items| - 1;
      var init := items[..n];
      EmitEachMeaning(init, emit, e);
      assert forall k :: 0 <= k < n ==> init[k] == items[k];
      if exists k :: 0 <= k < |items| && e in emit(items[k]).value {
        var k :| 0 <= k < |items| && e in emit(items[k]).value;
        assert k < n ==> init[k] == items[k];
      }
    }
  }
}
