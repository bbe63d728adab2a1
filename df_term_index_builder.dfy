/**
 * The job that counts, for every term, the article pages it occurs in. The mapper emits
 * each distinct term of an article once with the value 1; the reducer, also used as the
 * combiner, adds the values up.
 */
module DFTermIndexBuilders {
  import opened JavaLang
  import opened Normalizers
  import opened WikiPages

  /** The distinct terms of a page: the whitespace fields of its text without delimiters; none for a page that is not an article. */
  function PageTerms(page: Page, env: Environment): set<string>
  {
    if page.isArticle
    then set t | t in Split(NormalizedNoDelimiters(Prepared(page.content, env.unescape, env.stripMarkup)), WHITESPACES)
    else {}
  }

  /**
   * Map.map: a page that is not an article emits nothing; an article emits (term, 1) once
   * for each term of its term set, in the set's iteration order.
   */
  method MapPage(page: Page, env: Environment) returns (emits: seq<(string, int)>)
    ensures !page.isArticle ==> emits == []
    ensures forall t :: ValuesFor(emits, t) == if t in PageTerms(page, env) then [1] else []
    ensures |emits| == |PageTerms(page, env)|
  {
    emits := [];
    if !page.isArticle {
      return;
    }
    var normalizedContent := NormalizeNoDelimiters(page.content, env.unescape, env.stripMarkup);
    var tokens := Split(normalizedContent, WHITESPACES);
    var termSet := set t | t in tokens;
    emits := EmitOnceEach(termSet);
  }

  /** The loop over a HashSet of terms: each term emitted once with the value 1, in some order. */
  method EmitOnceEach(terms: set<string>) returns (emits: seq<(string, int)>)
    ensures forall t :: ValuesFor(emits, t) == if t in terms then [1] else []
    ensures |emits| == |terms|
  {
    emits := [];
    var rest := terms;
    while rest != {}
      invariant rest <= terms
      invariant forall t :: ValuesFor(emits, t) == if t in terms - rest then [1] else []
      invariant |emits| + |rest| == |terms|
      decreases |rest|
    {
      var term :| term in rest;
      forall t
        ensures ValuesFor(emits + [(term, 1)], t) == if t in terms - (rest - {term}) then [1] else []
      {
        ValuesForSnoc(emits, (term, 1), t);
        if t == term {
          assert t !in terms - rest;
        }
      }
      emits := emits + [(term, 1)];
      rest := rest - {term};
    }
  }

  /** The sum of the values. */
  function Sum(values: seq<int>): int
  {
    if |values| == 0 then 0 else Sum(values[..|values| - 1]) + values[|values| - 1]
  }

  /** Reduce.reduce: the total of the values received for one term. */
  method Reduce(values: seq<int>) returns (total: int)
    ensures total == Sum(values)
  {
    total := 0;
    for i := 0 to |values|
      invariant total == Sum(values[..i])
    {
      assert values[..i + 1][..i] == values[..i];
      total := total + values[i];
    }
    assert values[..|values|] == values;
  }

  // ---------------------------------------------------------------------------
  // Properties.

  lemma {:induction false} SumConcat(a: seq<int>, b: seq<int>)
    ensures Sum(a + b) == Sum(a) + Sum(b)
  {
    if |b| > 0 {
      SumConcat(a, b[..|b| - 1]);
      assert (a + b)[..|a + b| - 1] == a + b[..|b| - 1];
    } else {
      assert a + b == a;
    }
  }

  /** The values of all groups, one after another. */
  function Flatten(groups: seq<seq<int>>): seq<int>
  {
    if |groups| == 0 then [] else Flatten(groups[..|groups| - 1]) + groups[|groups| - 1]
  }

  /** The reduced groups, one total each. */
  function Totals(groups: seq<seq<int>>): (r: seq<int>)
    ensures |r| == |groups|
  {
    if |groups| == 0 then [] else Totals(groups[..|groups| - 1]) + [Sum(groups[|groups| - 1])]
  }

  /**
   * The reducer is a valid combiner: reducing the totals of any grouping of the values gives
   * the total of all of them.
   */
  lemma {:induction false} CombinerAgrees(groups: seq<seq<int>>)
    ensures Sum(Totals(groups)) == Sum(Flatten(groups))
  {
    if |groups| > 0 {
      var init := groups[..|groups| - 1];
      CombinerAgrees(init);
      var t := Totals(groups);
      assert t[..|t| - 1] == Totals(init);
      SumConcat(Flatten(init), groups[|groups| - 1]);
    }
  }

  /** A 1 for each true flag, in order. */
  function Ones(flags: seq<bool>): (r: seq<int>)
  {
    if |flags| == 0 then [] else Ones(flags[..|flags| - 1]) + (if flags[|flags| - 1] then [1] else [])
  }

  /** The ones add up to the number of true flags. */
  lemma {:induction false} CountOnes(flags: seq<bool>)
    ensures Sum(Ones(flags)) == |set i: nat | i < |flags| && flags[i]|
  {
    if |flags| > 0 {
      var init := flags[..|flags| - 1];
      CountOnes(init);
      var last: seq<int> := if flags[|flags| - 1] then [1] else [];
      SumConcat(Ones(init), last);
      assert Sum(last) == |last| by {
        assert last == [] || last[..0] == [];
      }
      TrueIndicesSnoc(flags);
    }
  }

  /** One more flag adds its own index to the true ones exactly when it is true. */
  lemma TrueIndicesSnoc(flags: seq<bool>)
    requires |flags| > 0
    ensures var init := flags[..|flags| - 1];
      |set i: nat | i < |flags| && flags[i]| ==
      |set i: nat | i < |init| && init[i]| + (if flags[|flags| - 1] then 1 else 0)
  {
    var init := flags[..|flags| - 1];
    var before := set i: nat | i < |init| && init[i];
    var all := set i: nat | i < |flags| && flags[i];
    var added: set<nat> := if flags[|flags| - 1] then {|init|} else {};
    forall i: nat
      ensures i in all <==> i in before + added
    {
      if i < |init| {
        assert init[i] == flags[i];
      }
    }
    assert all == before + added;
    assert |init| !in before;
  }

  /** Whether each page's term set holds the term. */
  function Holds(pages: seq<Page>, env: Environment, term: string): (r: seq<bool>)
    ensures |r| == |pages|
  {
    seq(|pages|, i requires 0 <= i < |pages| => term in PageTerms(pages[i], env))
  }

  /** The values the reducer of `term` receives from the pages: a 1 from each page whose term set holds it. */
  function TermValues(pages: seq<Page>, env: Environment, term: string): seq<int>
  {
    Ones(Holds(pages, env, term))
  }

  /** The indexes of the pages whose term sets hold the term. */
  function PagesWith(pages: seq<Page>, env: Environment, term: string): set<nat>
  {
    set i: nat | i < |pages| && term in PageTerms(pages[i], env)
  }

  /** The emissions of the pages, one page after another. */
  function JobEmits(emits: seq<seq<(string, int)>>): seq<(string, int)>
  {
    if |emits| == 0 then [] else JobEmits(emits[..|emits| - 1]) + emits[|emits| - 1]
  }

  /**
   * Whatever order each page's term set is iterated in, the values the reducer of a term
   * receives from the whole job are a 1 from each page whose term set holds it, in page order.
   */
  lemma {:induction false} JobTermValues(pages: seq<Page>, env: Environment, emits: seq<seq<(string, int)>>, term: string)
    requires |emits| == |pages|
    requires forall i :: 0 <= i < |pages| ==>
      forall t :: ValuesFor(emits[i], t) == if t in PageTerms(pages[i], env) then [1] else []
    ensures ValuesFor(JobEmits(emits), term) == TermValues(pages, env, term)
  {
    if |pages| > 0 {
      var n := |pages| - 1;
      JobTermValues(pages[..n], env, emits[..n], term);
      ValuesForConcat(JobEmits(emits[..n]), emits[n], term);
      var flags := Holds(pages, env, term);
      assert flags[..n] == Holds(pages[..n], env, term);
    }
  }

  /** Therefore the count a term ends with is the number of article pages it occurs in. */
  lemma DocumentFrequency(pages: seq<Page>, env: Environment, term: string)
    ensures Sum(TermValues(pages, env, term)) == |PagesWith(pages, env, term)|
    ensures forall i :: i in PagesWith(pages, env, term) ==> pages[i].isArticle
  {
    var flags := Holds(pages, env, term);
    CountOnes(flags);
    assert PagesWith(pages, env, term) == set i: nat | i < |flags| && flags[i];
  }
}
