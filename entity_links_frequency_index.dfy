/**
 * The weighted inlink index: for each entity, its inlink record (total link count, number of
 * links on its own page, and (linking entity, frequency) pairs in ascending entity order).
 * Popularity, cocitation and the conditional denominator are computed from it.
 */
module EntityLinksFrequencyIndexes {
  import opened Wrappers
  import opened EntityLinksEntries

  type FrequencyIndex = map<int, LinksRecord>

  predicate EntitiesIncreasing(links: seq<Link>)
  {
    forall i, j :: 0 <= i < j < |links| ==> links[i].entity < links[j].entity
  }

  /** getPopularity: one more than the total link count, 1 for an entity without an entry. */
  function Popularity(index: FrequencyIndex, entity: int): (r: int)
    ensures entity !in index ==> r == 1
    ensures entity in index && index[entity].totalFrequency >= 0 ==> r >= 1
  {
    1 + (if entity in index then index[entity].totalFrequency else 0)
  }

  // ---------------------------------------------------------------------------
  // Cocitation of an entity with itself: the pairs among its own links.

  /** Σ f(f-1)/2 over the frequencies, in list order. */
  function SelfPairs(links: seq<Link>): int
  {
    if |links| == 0 then 0
    else SelfPairs(links[..|links| - 1]) + Pairs(links[|links| - 1].frequency)
  }

  /** The number of unordered pairs among f items. */
  function Pairs(f: int): (r: int)
    ensures r >= 0
    ensures f >= 0 ==> 2 * r == f * (f - 1)
  {
    PairsEven(f);
    f * (f - 1) / 2
  }

  lemma PairsEven(f: int)
    ensures f * (f - 1) >= 0 && (f * (f - 1)) % 2 == 0
  {
    var q := f / 2;
    var x := f * (f - 1);
    if f % 2 == 0 {
      assert f == 2 * q;
      assert x == 2 * (q * (f - 1));
    } else {
      assert f == 2 * q + 1;
      assert x == 2 * (q * f);
    }
    if f >= 1 {
      assert f - 1 >= 0;
    } else {
      assert -f >= 0 && 1 - f >= 0;
      assert x == (-f) * (1 - f);
    }
  }

  /** Every link with frequency f adds f(f-1)/2 >= 0, so the self cocitation is never negative and grows with each link. */
  lemma {:induction false} SelfPairsBounds(links: seq<Link>, k: nat)
    requires k < |links|
    ensures SelfPairs(links) >= Pairs(links[k].frequency) >= 0
  {
    var n := |links| - 1;
    if k < n {
      SelfPairsBounds(links[..n], k);
    } else {
      SelfPairsNonNegative(links[..n]);
    }
  }

  lemma {:induction false} SelfPairsNonNegative(links: seq<Link>)
    ensures SelfPairs(links) >= 0
  {
    if |links| > 0 {
      SelfPairsNonNegative(links[..|links| - 1]);
    }
  }

  // ---------------------------------------------------------------------------
  // Cocitation of two distinct entities.

  /**
   * The loop of getCocitation as written: the header's ++i, ++j run after the body's own
   * increments, so a match moves both cursors by two, and a mismatch moves the smaller
   * cursor by two and the other by one.
   */
  function CommonAsWritten(l1: seq<Link>, l2: seq<Link>, i: nat, j: nat): int
    decreases |l1| + |l2| - i - j
  {
    if i >= |l1| || j >= |l2| then 0
    else if l1[i].entity == l2[j].entity then l1[i].frequency * l2[j].frequency + CommonAsWritten(l1, l2, i + 2, j + 2)
    else if l1[i].entity < l2[j].entity then CommonAsWritten(l1, l2, i + 2, j + 1)
    else CommonAsWritten(l1, l2, i + 1, j + 2)
  }

  /** The evidently intended merge: a match advances both cursors by one, a mismatch the smaller one. */
  function Common(l1: seq<Link>, l2: seq<Link>, i: nat, j: nat): int
    requires i <= |l1| && j <= |l2|
    decreases |l1| - i + |l2| - j
  {
    if i == |l1| || j == |l2| then 0
    else if l1[i].entity == l2[j].entity then l1[i].frequency * l2[j].frequency + Common(l1, l2, i + 1, j + 1)
    else if l1[i].entity < l2[j].entity then Common(l1, l2, i + 1, j)
    else Common(l1, l2, i, j + 1)
  }

  /** The frequency of entity in links (its first occurrence), 0 when it does not occur. */
  function FrequencyOf(links: seq<Link>, entity: int): int
  {
    if |links| == 0 then 0
    else if links[0].entity == entity then links[0].frequency
    else FrequencyOf(links[1..], entity)
  }

  /** The reference sum: each link of l1 times the frequency of the same entity in l2. */
  function SumOfProducts(l1: seq<Link>, l2: seq<Link>): int
  {
    if |l1| == 0 then 0
    else l1[0].frequency * FrequencyOf(l2, l1[0].entity) + SumOfProducts(l1[1..], l2)
  }

  /**
   * Counterexample: with l1 = [(1,1), (2,1)] and l2 = [(2,1)] the two lists share entity 2,
   * but the loop as written steps past it and reports 0 common links.
   */
  lemma CommonAsWrittenSkipsMatch()
    ensures CommonAsWritten([Link(1, 1), Link(2, 1)], [Link(2, 1)], 0, 0) == 0
    ensures Common([Link(1, 1), Link(2, 1)], [Link(2, 1)], 0, 0) == 1
    ensures SumOfProducts([Link(1, 1), Link(2, 1)], [Link(2, 1)]) == 1
  {
    var l1, l2 := [Link(1, 1), Link(2, 1)], [Link(2, 1)];
    assert CommonAsWritten(l1, l2, 0, 0) == CommonAsWritten(l1, l2, 2, 1) == 0;
    assert Common(l1, l2, 0, 0) == Common(l1, l2, 1, 0) == 1 + Common(l1, l2, 2, 1);
    assert l1[1..] == [Link(2, 1)] && l1[1..][1..] == [];
    assert FrequencyOf(l2, 1) == FrequencyOf([], 1) == 0 by {
      assert l2[1..] == [];
    }
  }

  /** Every link has a non-negative frequency, as the counts of an inlink record do. */
  predicate FrequenciesNonNegative(links: seq<Link>)
  {
    forall k :: 0 <= k < |links| ==> links[k].frequency >= 0
  }

  /** The number of iterations the loop as written runs from cursors (i, j). */
  function StepsAsWritten(l1: seq<Link>, l2: seq<Link>, i: nat, j: nat): nat
    decreases |l1| + |l2| - i - j
  {
    if i >= |l1| || j >= |l2| then 0
    else if l1[i].entity == l2[j].entity then 1 + StepsAsWritten(l1, l2, i + 2, j + 2)
    else if l1[i].entity < l2[j].entity then 1 + StepsAsWritten(l1, l2, i + 2, j + 1)
    else 1 + StepsAsWritten(l1, l2, i + 1, j + 2)
  }

  /** Every iteration as written advances both cursors, so the loop runs at most min(|l1|, |l2|) times. */
  lemma {:induction false} StepsAsWrittenBound(l1: seq<Link>, l2: seq<Link>, i: nat, j: nat)
    requires i <= |l1| && j <= |l2|
    ensures StepsAsWritten(l1, l2, i, j) <= |l1| - i && StepsAsWritten(l1, l2, i, j) <= |l2| - j
    decreases |l1| + |l2| - i - j
  {
    if i < |l1| && j < |l2| {
      // The cursors after one iteration: a match moves both by two, a mismatch the smaller by two.
      var (i', j') :=
        if l1[i].entity == l2[j].entity then (i + 2, j + 2)
        else if l1[i].entity < l2[j].entity then (i + 2, j + 1)
        else (i + 1, j + 2);
      if i' <= |l1| && j' <= |l2| {
        StepsAsWrittenBound(l1, l2, i', j');
      }
    }
  }

  lemma {:induction false} CommonNonNegative(l1: seq<Link>, l2: seq<Link>, i: nat, j: nat)
    requires FrequenciesNonNegative(l1) && FrequenciesNonNegative(l2)
    requires i <= |l1| && j <= |l2|
    ensures Common(l1, l2, i, j) >= 0
    decreases |l1| - i + |l2| - j
  {
    if i < |l1| && j < |l2| {
      if l1[i].entity == l2[j].entity {
        CommonNonNegative(l1, l2, i + 1, j + 1);
        assert l1[i].frequency * l2[j].frequency >= 0;
      } else if l1[i].entity < l2[j].entity {
        CommonNonNegative(l1, l2, i + 1, j);
      } else {
        CommonNonNegative(l1, l2, i, j + 1);
      }
    }
  }

  /** On sorted lists with non-negative frequencies, skipping a link of l1 never adds to the merge. */
  lemma {:induction false} CommonDropLeft(l1: seq<Link>, l2: seq<Link>, i: nat, j: nat)
    requires EntitiesIncreasing(l1) && EntitiesIncreasing(l2)
    requires FrequenciesNonNegative(l1) && FrequenciesNonNegative(l2)
    requires i < |l1| && j <= |l2|
    ensures Common(l1, l2, i + 1, j) <= Common(l1, l2, i, j)
    decreases |l2| - j
  {
    if j < |l2| {
      if l1[i].entity == l2[j].entity {
        // l2[j] is below every entity of l1 after i, so the merge from (i + 1, j) skips it.
        assert i + 1 < |l1| ==> l1[i + 1].entity > l2[j].entity;
        assert Common(l1, l2, i + 1, j) == Common(l1, l2, i + 1, j + 1);
        assert l1[i].frequency * l2[j].frequency >= 0;
      } else if l1[i].entity > l2[j].entity {
        CommonDropLeft(l1, l2, i, j + 1);
        assert i + 1 < |l1| ==> l1[i + 1].entity > l2[j].entity;
        assert Common(l1, l2, i + 1, j) == Common(l1, l2, i + 1, j + 1);
      }
    }
  }

  /** On sorted lists with non-negative frequencies, skipping a link of l2 never adds to the merge. */
  lemma {:induction false} CommonDropRight(l1: seq<Link>, l2: seq<Link>, i: nat, j: nat)
    requires EntitiesIncreasing(l1) && EntitiesIncreasing(l2)
    requires FrequenciesNonNegative(l1) && FrequenciesNonNegative(l2)
    requires i <= |l1| && j < |l2|
    ensures Common(l1, l2, i, j + 1) <= Common(l1, l2, i, j)
    decreases |l1| - i
  {
    if i < |l1| {
      if l1[i].entity == l2[j].entity {
        assert j + 1 < |l2| ==> l2[j + 1].entity > l1[i].entity;
        assert Common(l1, l2, i, j + 1) == Common(l1, l2, i + 1, j + 1);
        assert l1[i].frequency * l2[j].frequency >= 0;
      } else if l1[i].entity < l2[j].entity {
        CommonDropRight(l1, l2, i + 1, j);
        assert j + 1 < |l2| ==> l2[j + 1].entity > l1[i].entity;
        assert Common(l1, l2, i, j + 1) == Common(l1, l2, i + 1, j + 1);
      }
    }
  }

  /**
   * For every input the loop as written adds only products at coinciding ids: on sorted lists
   * with non-negative frequencies it never exceeds the intended merge, and never goes below 0.
   */
  lemma {:induction false} CommonAsWrittenBounds(l1: seq<Link>, l2: seq<Link>, i: nat, j: nat)
    requires EntitiesIncreasing(l1) && EntitiesIncreasing(l2)
    requires FrequenciesNonNegative(l1) && FrequenciesNonNegative(l2)
    requires i <= |l1| && j <= |l2|
    ensures 0 <= CommonAsWritten(l1, l2, i, j) <= Common(l1, l2, i, j)
    decreases |l1| + |l2| - i - j
  {
    CommonNonNegative(l1, l2, i, j);
    if i < |l1| && j < |l2| {
      var p := l1[i].frequency * l2[j].frequency;
      if l1[i].entity == l2[j].entity {
        assert p >= 0;
        if i + 2 <= |l1| && j + 2 <= |l2| {
          CommonAsWrittenBounds(l1, l2, i + 2, j + 2);
          CommonDropLeft(l1, l2, i + 1, j + 1);
          CommonDropRight(l1, l2, i + 2, j + 1);
        } else {
          CommonNonNegative(l1, l2, i + 1, j + 1);
        }
      } else if l1[i].entity < l2[j].entity {
        if i + 2 <= |l1| {
          CommonAsWrittenBounds(l1, l2, i + 2, j + 1);
          CommonDropLeft(l1, l2, i + 1, j);
          CommonDropRight(l1, l2, i + 2, j);
        } else {
          CommonNonNegative(l1, l2, i + 1, j);
        }
      } else {
        if j + 2 <= |l2| {
          CommonAsWrittenBounds(l1, l2, i + 1, j + 2);
          CommonDropRight(l1, l2, i, j + 1);
          CommonDropLeft(l1, l2, i, j + 2);
        } else {
          CommonNonNegative(l1, l2, i, j + 1);
        }
      }
    }
  }

  /** An entity below every entity of the list's tail from j has frequency 0 there. */
  lemma {:induction false} FrequencyOfBelow(links: seq<Link>, j: nat, entity: int)
    requires EntitiesIncreasing(links) && j <= |links|
    requires j < |links| ==> entity < links[j].entity
    ensures FrequencyOf(links[j..], entity) == 0
    decreases |links| - j
  {
    if j < |links| {
      assert links[j..][1..] == links[j + 1..];
      FrequencyOfBelow(links, j + 1, entity);
    }
  }

  /** Dropping a head whose entity l1 does not have leaves the sum unchanged. */
  lemma {:induction false} SumDropHead(l1: seq<Link>, l2: seq<Link>)
    requires |l2| > 0
    requires forall k :: 0 <= k < |l1| ==> l1[k].entity != l2[0].entity
    ensures SumOfProducts(l1, l2) == SumOfProducts(l1, l2[1..])
  {
    if |l1| > 0 {
      SumDropHead(l1[1..], l2);
    }
  }

  lemma {:induction false} SumOfNone(l1: seq<Link>)
    ensures SumOfProducts(l1, []) == 0
  {
    if |l1| > 0 {
      SumOfNone(l1[1..]);
    }
  }

  /** On lists with strictly increasing entities the merge sums f1·f2 over the entities both lists have. */
  lemma {:induction false} CommonIsSumOfProducts(l1: seq<Link>, l2: seq<Link>, i: nat, j: nat)
    requires EntitiesIncreasing(l1) && EntitiesIncreasing(l2)
    requires i <= |l1| && j <= |l2|
    ensures Common(l1, l2, i, j) == SumOfProducts(l1[i..], l2[j..])
    decreases |l1| - i + |l2| - j
  {
    if i == |l1| {
    } else if j == |l2| {
      assert l2[j..] == [];
      SumOfNone(l1[i..]);
    } else {
      assert l1[i..][1..] == l1[i + 1..];
      assert l2[j..][1..] == l2[j + 1..];
      if l1[i].entity == l2[j].entity {
        CommonIsSumOfProducts(l1, l2, i + 1, j + 1);
        SumDropHead(l1[i + 1..], l2[j..]);
      } else if l1[i].entity < l2[j].entity {
        CommonIsSumOfProducts(l1, l2, i + 1, j);
        FrequencyOfBelow(l2, j, l1[i].entity);
      } else {
        CommonIsSumOfProducts(l1, l2, i, j + 1);
        SumDropHead(l1[i..], l2[j..]);
      }
    }
  }

  /** getCocitation: 0 without both entries, the self pairs for one entity, otherwise the common products. */
  function Cocitation(index: FrequencyIndex, entity1: int, entity2: int): int
  {
    if entity1 !in index || entity2 !in index then 0
    else if entity1 == entity2 then SelfPairs(index[entity1].links)
    else Common(index[entity1].links, index[entity2].links, 0, 0)
  }

  /**
   * Cocitation is 0 when an entity has no entry, the sum of f(f-1)/2 over an entity's own
   * links for equal entities, and for distinct entities with sorted links the sum of f1·f2
   * over the entities linking to both.
   */
  lemma CocitationMeaning(index: FrequencyIndex, entity1: int, entity2: int)
    ensures entity1 !in index || entity2 !in index ==> Cocitation(index, entity1, entity2) == 0
    ensures entity1 in index && entity1 == entity2 ==> Cocitation(index, entity1, entity2) >= 0
    ensures (entity1 != entity2 && entity1 in index && entity2 in index &&
      EntitiesIncreasing(index[entity1].links) && EntitiesIncreasing(index[entity2].links)) ==>
      Cocitation(index, entity1, entity2) == SumOfProducts(index[entity1].links, index[entity2].links)
  {
    if entity1 in index && entity2 in index {
      if entity1 == entity2 {
        SelfPairsNonNegative(index[entity1].links);
      } else if EntitiesIncreasing(index[entity1].links) && EntitiesIncreasing(index[entity2].links) {
        CommonIsSumOfProducts(index[entity1].links, index[entity2].links, 0, 0);
        assert index[entity1].links[0..] == index[entity1].links;
        assert index[entity2].links[0..] == index[entity2].links;
      }
    }
  }

  method GetCocitation(index: FrequencyIndex, entity1: int, entity2: int) returns (r: int)
    ensures r == Cocitation(index, entity1, entity2)
  {
    if entity1 !in index || entity2 !in index {
      return 0;
    }
    if entity1 == entity2 {
      var links := index[entity1].links;
      r := 0;
      var k := 0;
      while k < |links|
        invariant 0 <= k <= |links|
        invariant r == SelfPairs(links[..k])
      {
        assert links[..k + 1][..k] == links[..k];
        r := r + Pairs(links[k].frequency);
        k := k + 1;
      }
      assert links[..k] == links;
      return r;
    }
    var links1, links2 := index[entity1].links, index[entity2].links;
    var i, j, common := 0, 0, 0;
    while i < |links1| && j < |links2|
      invariant 0 <= i <= |links1| && 0 <= j <= |links2|
      invariant common + Common(links1, links2, i, j) == Common(links1, links2, 0, 0)
      decreases |links1| - i + |links2| - j
    {
      if links1[i].entity == links2[j].entity {
        common := common + links1[i].frequency * links2[j].frequency;
        i, j := i + 1, j + 1;
      } else if links1[i].entity < links2[j].entity {
        i := i + 1;
      } else {
        j := j + 1;
      }
    }
    r := common;
  }

  /** getCocitation as the program is written: the distinct-entity case runs the double-advancing loop. */
  function CocitationAsWritten(index: FrequencyIndex, entity1: int, entity2: int): int
  {
    if entity1 !in index || entity2 !in index then 0
    else if entity1 == entity2 then SelfPairs(index[entity1].links)
    else CommonAsWritten(index[entity1].links, index[entity2].links, 0, 0)
  }

  /**
   * The program as written agrees with the intended cocitation except on distinct entities,
   * where, on sorted records with non-negative frequencies, it reports at most the intended
   * count and never less than 0.
   */
  lemma CocitationAsWrittenMeaning(index: FrequencyIndex, entity1: int, entity2: int)
    ensures entity1 !in index || entity2 !in index || entity1 == entity2 ==>
      CocitationAsWritten(index, entity1, entity2) == Cocitation(index, entity1, entity2)
    ensures (entity1 != entity2 && entity1 in index && entity2 in index &&
      EntitiesIncreasing(index[entity1].links) && EntitiesIncreasing(index[entity2].links) &&
      FrequenciesNonNegative(index[entity1].links) && FrequenciesNonNegative(index[entity2].links)) ==>
      0 <= CocitationAsWritten(index, entity1, entity2) <= Cocitation(index, entity1, entity2)
  {
    if entity1 != entity2 && entity1 in index && entity2 in index &&
      EntitiesIncreasing(index[entity1].links) && EntitiesIncreasing(index[entity2].links) &&
      FrequenciesNonNegative(index[entity1].links) && FrequenciesNonNegative(index[entity2].links)
    {
      CommonAsWrittenBounds(index[entity1].links, index[entity2].links, 0, 0);
    }
  }

  /** The loops of getCocitation exactly as written, header increments included. */
  method GetCocitationAsWritten(index: FrequencyIndex, entity1: int, entity2: int) returns (r: int)
    ensures r == CocitationAsWritten(index, entity1, entity2)
  {
    if entity1 !in index || entity2 !in index {
      return 0;
    }
    if entity1 == entity2 {
      r := GetCocitation(index, entity1, entity2);
      return;
    }
    var links1, links2 := index[entity1].links, index[entity2].links;
    var i, j, common := 0, 0, 0;
    while i < |links1| && j < |links2|
      invariant common + CommonAsWritten(links1, links2, i, j) == CommonAsWritten(links1, links2, 0, 0)
      decreases |links1| + |links2| - i - j
    {
      if links1[i].entity == links2[j].entity {
        common := common + links1[i].frequency * links2[j].frequency;
        i, j := i + 1, j + 1;
      } else if links1[i].entity < links2[j].entity {
        i := i + 1;
      } else {
        j := j + 1;
      }
      i, j := i + 1, j + 1;
    }
    r := common;
  }

  // ---------------------------------------------------------------------------
  // getConditionalDenominator.

  /**
   * The sum over entityCond's first n links (doc, f) of f·(noLinks(doc) - f) + f(f-1)/2; a
   * linking doc without an entry is an IllegalArgumentException.
   */
  function DenominatorUpTo(index: FrequencyIndex, links: seq<Link>, n: nat): Result<int>
    requires n <= |links|
  {
    if n == 0 then Ok(0)
    else
      var prev :- DenominatorUpTo(index, links, n - 1);
      var link := links[n - 1];
      if link.entity !in index then Err(IllegalArgument)
      else Ok(prev + link.frequency * (index[link.entity].noLinks - link.frequency) + Pairs(link.frequency))
  }

  /** getConditionalDenominator: entityCond must have an entry (else NullPointerException). */
  function ConditionalDenominator(index: FrequencyIndex, entityCond: int): Result<int>
  {
    if entityCond !in index then Err(NullPointer)
    else DenominatorUpTo(index, index[entityCond].links, |index[entityCond].links|)
  }

  /**
   * The denominator is defined exactly when every doc linking to entityCond has an entry,
   * and then counts, per linking doc, the pairs of its links that include entityCond: when
   * no doc has fewer links than it has links to entityCond, the result is never negative.
   */
  lemma {:induction false} DenominatorUpToMeaning(index: FrequencyIndex, links: seq<Link>, n: nat)
    requires n <= |links|
    ensures DenominatorUpTo(index, links, n).Ok? <==> forall k :: 0 <= k < n ==> links[k].entity in index
    ensures DenominatorUpTo(index, links, n).Err? ==> DenominatorUpTo(index, links, n).error == IllegalArgument
    ensures ((forall k :: 0 <= k < n ==> (links[k].entity in index &&
        links[k].frequency >= 0 && index[links[k].entity].noLinks >= links[k].frequency)) ==>
      DenominatorUpTo(index, links, n).Ok? && DenominatorUpTo(index, links, n).value >= 0)
  {
    if n > 0 {
      DenominatorUpToMeaning(index, links, n - 1);
    }
  }

  lemma {:induction false} DenominatorUpToFails(index: FrequencyIndex, links: seq<Link>, k: nat, n: nat)
    requires k <= n <= |links| && DenominatorUpTo(index, links, k).Err?
    ensures DenominatorUpTo(index, links, n) == DenominatorUpTo(index, links, k)
    decreases n - k
  {
    if k < n {
      DenominatorUpToFails(index, links, k, n - 1);
    }
  }

  method GetConditionalDenominator(index: FrequencyIndex, entityCond: int) returns (r: Result<int>)
    ensures r == ConditionalDenominator(index, entityCond)
  {
    if entityCond !in index {
      return Err(NullPointer);
    }
    var links := index[entityCond].links;
    var result := 0;
    var k := 0;
    while k < |links|
      invariant 0 <= k <= |links|
      invariant DenominatorUpTo(index, links, k) == Ok(result)
    {
      var docno := links[k].entity;
      var entityCondFrequency := links[k].frequency;
      if docno !in index {
        DenominatorUpToFails(index, links, k + 1, |links|);
        return Err(IllegalArgument);
      }
      var docLinks := index[docno].noLinks;
      result := result + entityCondFrequency * (docLinks - entityCondFrequency) + Pairs(entityCondFrequency);
      k := k + 1;
    }
    r := Ok(result);
  }
}
