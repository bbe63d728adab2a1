/**
 * The referent graph of a document and the answers read off it: one vertex per mention, one
 * per (mention, candidate entity); mention-to-candidate edges weighted by normalised local
 * compatibility, candidate-to-candidate edges by normalised semantic relatedness. The random
 * walk itself (personalised PageRank) is an input: the stationary score of each vertex.
 */
module RandomGraphWalks {
  import opened Wrappers
  import opened OrderedMaps
  import opened Mentions
  import opened ArgMaxes
  import opened Annotations

  /** The walk's restart probability, passed to PageRank. */
  const ALPHA: real := 0.1
  /** Relatedness at or below this adds no edge. */
  const EPS: real := 0.00001
  /** The relatedness cache is used only for graphs with fewer vertices than this. */
  const MAP_MAX: int := 18000

  /**
   * A vertex: a mention, by its position in the mention list, or a candidate entity of a
   * mention. Mentions are told apart by reference, hence by position.
   */
  datatype Node = MentionNode(mention: nat) | EntityNode(mention: nat, entity: int)

  datatype WeightedEdge = WeightedEdge(source: Node, target: Node, weight: real)

  /** A vertex's prior: the mention's importance for a mention vertex, 0 for a candidate vertex. */
  function Prior(mentions: seq<MentionInfo>, n: Node): real
  {
    if n.MentionNode? && n.mention < |mentions| then mentions[n.mention].importance else 0.0
  }

  // ---------------------------------------------------------------------------
  // Mention-to-candidate edges.

  /** BigDecimal division rounded HALF_UP to scale 0, for a non-negative quotient. */
  function RoundHalfUp(x: real): int
  {
    (x + 0.5).Floor
  }

  /**
   * The weight of each edge of a mention whose compatibilities sum to zero: 1 divided by the
   * candidate count, rounded half-up to a whole number, which is 1 for one or two candidates
   * and 0 for three or more.
   */
  function ZeroMassWeight(count: nat): (w: real)
    requires count > 0
    ensures w == if count <= 2 then 1.0 else 0.0
  {
    var q := 1.0 / count as real;
    assert q * count as real == 1.0;
    assert count >= 3 ==> q <= 1.0 / 3.0;
    RoundHalfUp(q) as real
  }

  /** The weight of the edge from a mention to one of its candidates. */
  function MentionWeight(m: MentionInfo, e: int): real
    requires m.candidates.Valid() && e in m.candidates.values
  {
    var sum := SumScores(m.candidates);
    if sum == 0.0 then ZeroMassWeight(|m.candidates.keys|) else m.candidates.values[e] / sum
  }

  /** The edges from mention i to each of its candidates, in iteration order. */
  function MentionEdges(m: MentionInfo, i: nat): (r: seq<WeightedEdge>)
    requires m.candidates.Valid()
    ensures |r| == |m.candidates.keys|
    ensures forall k :: 0 <= k < |r| ==>
      r[k] == WeightedEdge(MentionNode(i), EntityNode(i, m.candidates.keys[k]), MentionWeight(m, m.candidates.keys[k]))
  {
    seq(|m.candidates.keys|, k requires 0 <= k < |m.candidates.keys| && m.candidates.Valid() =>
      WeightedEdge(MentionNode(i), EntityNode(i, m.candidates.keys[k]), MentionWeight(m, m.candidates.keys[k])))
  }

  function Weights(edges: seq<WeightedEdge>): (ws: seq<real>)
    ensures |ws| == |edges| && forall k :: 0 <= k < |edges| ==> ws[k] == edges[k].weight
  {
    seq(|edges|, k requires 0 <= k < |edges| => edges[k].weight)
  }

  /** Dividing every term by s divides the sum by s. */
  lemma {:induction false} SumDivided(xs: seq<real>, ys: seq<real>, s: real)
    requires s != 0.0 && |xs| == |ys|
    requires forall k :: 0 <= k < |xs| ==> ys[k] == xs[k] / s
    ensures Sum(ys) == Sum(xs) / s
  {
    if |xs| > 0 {
      SumDivided(xs[..|xs| - 1], ys[..|ys| - 1], s);
    }
  }

  /** Dividing every term by their non-zero total gives terms that sum to 1. */
  lemma SumNormalised(xs: seq<real>, ys: seq<real>)
    requires Sum(xs) != 0.0 && |xs| == |ys|
    requires forall k :: 0 <= k < |xs| ==> ys[k] == xs[k] / Sum(xs)
    ensures Sum(ys) == 1.0
  {
    var s := Sum(xs);
    SumDivided(xs, ys, s);
    DivSelf(s);
  }

  lemma DivSelf(s: real)
    requires s != 0.0
    ensures s / s == 1.0
  {
  }

  /**
   * A mention with non-zero total compatibility sends its candidates weights compat / total,
   * which sum to 1; with zero total every weight is the rounded 1 / count.
   */
  lemma MentionWeightsNormalised(m: MentionInfo, i: nat)
    requires m.candidates.Valid()
    ensures SumScores(m.candidates) != 0.0 ==> Sum(Weights(MentionEdges(m, i))) == 1.0
    ensures SumScores(m.candidates) == 0.0 ==> forall k :: 0 <= k < |m.candidates.keys| ==>
      MentionEdges(m, i)[k].weight == if |m.candidates.keys| <= 2 then 1.0 else 0.0
  {
    var s := SumScores(m.candidates);
    var edges := MentionEdges(m, i);
    var ws := Weights(edges);
    if s != 0.0 {
      var vs := m.candidates.ValuesInOrder();
      forall k | 0 <= k < |vs|
        ensures ws[k] == vs[k] / s
      {
        assert ws[k] == MentionWeight(m, m.candidates.keys[k]);
      }
      SumNormalised(vs, ws);
    } else {
      forall k | 0 <= k < |m.candidates.keys|
        ensures edges[k].weight == if |m.candidates.keys| <= 2 then 1.0 else 0.0
      {
        assert edges[k].weight == MentionWeight(m, m.candidates.keys[k]);
      }
    }
  }

  // ---------------------------------------------------------------------------
  // The relatedness cache.

  /** The cache key of an unordered pair: (min, max). */
  function PairKey(e1: int, e2: int): (k: (int, int))
    ensures k.0 <= k.1 && {k.0, k.1} == {e1, e2}
  {
    if e1 <= e2 then (e1, e2) else (e2, e1)
  }

  /**
   * computeRelatedness: without the cache, the index's relatedness; with it, the cached value
   * of the unordered pair, or the index's value, which is then cached.
   */
  function ComputeRelatedness(memo: map<(int, int), real>, e1: int, e2: int, useMap: bool,
                              rel: (int, int) -> real): (r: (real, map<(int, int), real>))
  {
    if !useMap then (rel(e1, e2), memo)
    else if PairKey(e1, e2) in memo then (memo[PairKey(e1, e2)], memo)
    else (rel(e1, e2), memo[PairKey(e1, e2) := rel(e1, e2)])
  }

  /** Every cached value is the index's relatedness of its pair. */
  predicate MemoSound(memo: map<(int, int), real>, rel: (int, int) -> real)
  {
    forall k :: k in memo ==> memo[k] == rel(k.0, k.1)
  }

  /**
   * The cache answers a pair in either order with the value first computed for it, queries
   * the index only for a pair not cached yet, and only ever adds that pair.
   */
  lemma RelatednessCache(memo: map<(int, int), real>, e1: int, e2: int, rel: (int, int) -> real)
    ensures var (v, memo') := ComputeRelatedness(memo, e1, e2, true, rel);
      ComputeRelatedness(memo', e2, e1, true, rel) == (v, memo') &&
      ComputeRelatedness(memo', e1, e2, true, rel) == (v, memo') &&
      memo'.Keys == memo.Keys + {PairKey(e1, e2)} &&
      (PairKey(e1, e2) in memo ==> memo' == memo)
  {
    assert PairKey(e2, e1) == PairKey(e1, e2);
  }

  /** For a symmetric relatedness, a sound cache is transparent and stays sound. */
  lemma RelatednessCacheTransparent(memo: map<(int, int), real>, e1: int, e2: int, useMap: bool,
                                    rel: (int, int) -> real)
    requires MemoSound(memo, rel) && forall a, b :: rel(a, b) == rel(b, a)
    ensures ComputeRelatedness(memo, e1, e2, useMap, rel).0 == rel(e1, e2)
    ensures MemoSound(ComputeRelatedness(memo, e1, e2, useMap, rel).1, rel)
  {
    assert rel(e2, e1) == rel(e1, e2);
  }

  // ---------------------------------------------------------------------------
  // Candidate-to-candidate edges.

  /** The candidates of mention j (its keys) related to e1 by more than EPS, as (j, entity) pairs, in order. */
  function RelatedIn(j: nat, keys: seq<int>, e1: int, rel: (int, int) -> real): seq<(nat, int)>
  {
    if |keys| == 0 then []
    else
      RelatedIn(j, keys[..|keys| - 1], e1, rel) +
      (if rel(e1, keys[|keys| - 1]) > EPS then [(j, keys[|keys| - 1])] else [])
  }

  lemma {:induction false} RelatedInMembers(j: nat, keys: seq<int>, e1: int, rel: (int, int) -> real)
    ensures forall t :: t in RelatedIn(j, keys, e1, rel) <==> t.0 == j && t.1 in keys && rel(e1, t.1) > EPS
  {
    if |keys| > 0 {
      RelatedInMembers(j, keys[..|keys| - 1], e1, rel);
      assert keys == keys[..|keys| - 1] + [keys[|keys| - 1]];
    }
  }

  /** The targets of candidate e1 of mention i among mentions 0..n-1 other than i, in loop order. */
  function Targets(mentions: seq<MentionInfo>, i: nat, e1: int, rel: (int, int) -> real, n: nat): seq<(nat, int)>
    requires n <= |mentions|
  {
    if n == 0 then []
    else
      Targets(mentions, i, e1, rel, n - 1) +
      (if n - 1 == i then [] else RelatedIn(n - 1, mentions[n - 1].candidates.keys, e1, rel))
  }

  /** The targets are exactly the candidates of the other mentions related to e1 by more than EPS. */
  lemma {:induction false} TargetsMembers(mentions: seq<MentionInfo>, i: nat, e1: int, rel: (int, int) -> real, n: nat)
    requires n <= |mentions|
    ensures forall t :: t in Targets(mentions, i, e1, rel, n) <==>
      t.0 < n && t.0 != i && t.1 in mentions[t.0].candidates.keys && rel(e1, t.1) > EPS
  {
    if n > 0 {
      TargetsMembers(mentions, i, e1, rel, n - 1);
      RelatedInMembers(n - 1, mentions[n - 1].candidates.keys, e1, rel);
      var extra := if n - 1 == i then [] else RelatedIn(n - 1, mentions[n - 1].candidates.keys, e1, rel);
      assert Targets(mentions, i, e1, rel, n) == Targets(mentions, i, e1, rel, n - 1) + extra;
    }
  }

  /** Targets found among the first j + 1 mentions make the total over all mentions non-zero. */
  lemma RelatedNeedsTotal(mentions: seq<MentionInfo>, i: nat, e1: int, rel: (int, int) -> real, j: nat,
                          related: seq<(nat, int)>)
    requires j < |mentions|
    requires Targets(mentions, i, e1, rel, j + 1) == Targets(mentions, i, e1, rel, j) + related
    ensures |related| > 0 ==> SumRel(Targets(mentions, i, e1, rel, |mentions|), e1, rel) != 0.0
  {
    if |related| > 0 {
      var target := related[0];
      assert target in Targets(mentions, i, e1, rel, j + 1);
      TargetsMembers(mentions, i, e1, rel, j + 1);
      TargetsMembers(mentions, i, e1, rel, |mentions|);
      assert target in Targets(mentions, i, e1, rel, |mentions|);
      TargetsTotal(mentions, i, e1, rel);
    }
  }

  /** The relatedness of e1 to each target. */
  function Rels(targets: seq<(nat, int)>, e1: int, rel: (int, int) -> real): (rs: seq<real>)
    ensures |rs| == |targets| && forall k :: 0 <= k < |targets| ==> rs[k] == rel(e1, targets[k].1)
  {
    seq(|targets|, k requires 0 <= k < |targets| => rel(e1, targets[k].1))
  }

  /** The summed relatedness of e1 to the targets. */
  function SumRel(targets: seq<(nat, int)>, e1: int, rel: (int, int) -> real): real
  {
    Sum(Rels(targets, e1, rel))
  }

  lemma SumRelAppend(a: seq<(nat, int)>, b: seq<(nat, int)>, e1: int, rel: (int, int) -> real)
    ensures SumRel(a + b, e1, rel) == SumRel(a, e1, rel) + SumRel(b, e1, rel)
  {
    assert Rels(a + b, e1, rel) == Rels(a, e1, rel) + Rels(b, e1, rel);
    SumConcat(Rels(a, e1, rel), Rels(b, e1, rel));
  }

  /** Targets related by more than EPS have a positive total exactly when there is one. */
  lemma TargetsTotal(mentions: seq<MentionInfo>, i: nat, e1: int, rel: (int, int) -> real)
    ensures var targets := Targets(mentions, i, e1, rel, |mentions|);
      SumRel(targets, e1, rel) >= 0.0 && (|targets| > 0 <==> SumRel(targets, e1, rel) > 0.0)
  {
    var targets := Targets(mentions, i, e1, rel, |mentions|);
    TargetsMembers(mentions, i, e1, rel, |mentions|);
    forall k | 0 <= k < |targets| ensures Rels(targets, e1, rel)[k] > 0.0 {
      assert targets[k] in targets;
    }
    SumPositive(Rels(targets, e1, rel));
  }

  /** The edges from candidate e1 of mention i to the given targets, each weighted relatedness / total. */
  function EdgesTo(i: nat, e1: int, targets: seq<(nat, int)>, total: real, rel: (int, int) -> real): (r: seq<WeightedEdge>)
    requires total != 0.0
    ensures |r| == |targets|
    ensures forall k :: 0 <= k < |r| ==>
      r[k] == WeightedEdge(EntityNode(i, e1), EntityNode(targets[k].0, targets[k].1), rel(e1, targets[k].1) / total)
  {
    seq(|targets|, k requires 0 <= k < |targets| =>
      WeightedEdge(EntityNode(i, e1), EntityNode(targets[k].0, targets[k].1), rel(e1, targets[k].1) / total))
  }

  lemma EdgesToSnoc(i: nat, e1: int, targets: seq<(nat, int)>, t: (nat, int), total: real, rel: (int, int) -> real)
    requires total != 0.0
    ensures EdgesTo(i, e1, targets + [t], total, rel) ==
      EdgesTo(i, e1, targets, total, rel) + [WeightedEdge(EntityNode(i, e1), EntityNode(t.0, t.1), rel(e1, t.1) / total)]
  {
  }

  lemma EdgesToConcat(i: nat, e1: int, a: seq<(nat, int)>, b: seq<(nat, int)>, total: real, rel: (int, int) -> real)
    requires total != 0.0
    ensures EdgesTo(i, e1, a + b, total, rel) == EdgesTo(i, e1, a, total, rel) + EdgesTo(i, e1, b, total, rel)
  {
  }

  /** All edges out of candidate e1 of mention i. */
  function EntityEdges(mentions: seq<MentionInfo>, i: nat, e1: int, rel: (int, int) -> real): seq<WeightedEdge>
  {
    var targets := Targets(mentions, i, e1, rel, |mentions|);
    TargetsTotal(mentions, i, e1, rel);
    if |targets| == 0 then [] else EdgesTo(i, e1, targets, SumRel(targets, e1, rel), rel)
  }

  /**
   * Every edge out of candidate e1 of mention i goes to a candidate of another mention related
   * to it by more than EPS.
   */
  lemma EntityEdgesSound(mentions: seq<MentionInfo>, i: nat, e1: int, rel: (int, int) -> real)
    ensures forall e :: e in EntityEdges(mentions, i, e1, rel) ==> (e.source == EntityNode(i, e1) &&
      e.target.EntityNode? && e.target.mention < |mentions| && e.target.mention != i &&
      e.target.entity in mentions[e.target.mention].candidates.keys && rel(e1, e.target.entity) > EPS)
  {
    var targets := Targets(mentions, i, e1, rel, |mentions|);
    var edges := EntityEdges(mentions, i, e1, rel);
    TargetsMembers(mentions, i, e1, rel, |mentions|);
    if |targets| > 0 {
      TargetsTotal(mentions, i, e1, rel);
      assert edges == EdgesTo(i, e1, targets, SumRel(targets, e1, rel), rel);
      forall e | e in edges
        ensures e.target.mention < |mentions| && e.target.mention != i
        ensures e.target.entity in mentions[e.target.mention].candidates.keys
      {
        var k :| 0 <= k < |edges| && edges[k] == e;
        assert targets[k] in targets;
      }
    }
  }

  /** Candidate e1 of mention i has an edge to every candidate of another mention related to it by more than EPS. */
  lemma EntityEdgesComplete(mentions: seq<MentionInfo>, i: nat, e1: int, rel: (int, int) -> real)
    ensures forall j: nat, e2 :: j < |mentions| && j != i && e2 in mentions[j].candidates.keys && rel(e1, e2) > EPS ==>
      exists e :: e in EntityEdges(mentions, i, e1, rel) && e.target == EntityNode(j, e2)
  {
    var targets := Targets(mentions, i, e1, rel, |mentions|);
    var edges := EntityEdges(mentions, i, e1, rel);
    TargetsMembers(mentions, i, e1, rel, |mentions|);
    forall j: nat, e2 | j < |mentions| && j != i && e2 in mentions[j].candidates.keys && rel(e1, e2) > EPS
      ensures exists e :: e in edges && e.target == EntityNode(j, e2)
    {
      assert (j, e2) in targets;
      TargetsTotal(mentions, i, e1, rel);
      assert edges == EdgesTo(i, e1, targets, SumRel(targets, e1, rel), rel);
      var k :| 0 <= k < |targets| && targets[k] == (j, e2);
      assert edges[k] in edges;
    }
  }

  /** The weights out of a candidate are relatedness over their total, so they sum to 1 unless there is no edge. */
  lemma EntityEdgesNormalised(mentions: seq<MentionInfo>, i: nat, e1: int, rel: (int, int) -> real)
    ensures var edges := EntityEdges(mentions, i, e1, rel);
      |edges| == 0 || Sum(Weights(edges)) == 1.0
  {
    var targets := Targets(mentions, i, e1, rel, |mentions|);
    if |targets| > 0 {
      TargetsTotal(mentions, i, e1, rel);
      var total := SumRel(targets, e1, rel);
      var edges := EdgesTo(i, e1, targets, total, rel);
      assert EntityEdges(mentions, i, e1, rel) == edges;
      var ws := Weights(edges);
      forall k | 0 <= k < |ws|
        ensures ws[k] == Rels(targets, e1, rel)[k] / total
      {
        assert ws[k] == edges[k].weight;
      }
      SumNormalised(Rels(targets, e1, rel), ws);
    }
  }

  // ---------------------------------------------------------------------------
  // The whole graph, in the order constructGraph adds its edges.

  /** First every mention's candidate edges, mention by mention. */
  function MentionPhase(mentions: seq<MentionInfo>, n: nat): seq<WeightedEdge>
    requires n <= |mentions| && WellFormedMentions(mentions)
  {
    if n == 0 then [] else MentionPhase(mentions, n - 1) + MentionEdges(mentions[n - 1], n - 1)
  }

  /** Then, for mention i, the edges out of its first k candidates. */
  function CandidatePhase(mentions: seq<MentionInfo>, i: nat, k: nat, rel: (int, int) -> real): seq<WeightedEdge>
    requires i < |mentions| && k <= |mentions[i].candidates.keys|
  {
    if k == 0 then []
    else CandidatePhase(mentions, i, k - 1, rel) + EntityEdges(mentions, i, mentions[i].candidates.keys[k - 1], rel)
  }

  /** ... for mentions 0..n-1. */
  function EntityPhase(mentions: seq<MentionInfo>, n: nat, rel: (int, int) -> real): seq<WeightedEdge>
    requires n <= |mentions|
  {
    if n == 0 then []
    else EntityPhase(mentions, n - 1, rel) + CandidatePhase(mentions, n - 1, |mentions[n - 1].candidates.keys|, rel)
  }

  lemma MentionPhaseStep(mentions: seq<MentionInfo>, i: nat)
    requires i < |mentions| && WellFormedMentions(mentions)
    ensures MentionPhase(mentions, i + 1) == MentionPhase(mentions, i) + MentionEdges(mentions[i], i)
  {
  }

  lemma EntityPhaseStep(mentions: seq<MentionInfo>, i: nat, rel: (int, int) -> real)
    requires i < |mentions|
    ensures EntityPhase(mentions, i + 1, rel) ==
      EntityPhase(mentions, i, rel) + CandidatePhase(mentions, i, |mentions[i].candidates.keys|, rel)
  {
  }

  function GraphEdges(mentions: seq<MentionInfo>, rel: (int, int) -> real): seq<WeightedEdge>
    requires WellFormedMentions(mentions)
  {
    MentionPhase(mentions, |mentions|) + EntityPhase(mentions, |mentions|, rel)
  }

  /** The vertices of a graph: the ends of its edges. */
  function VerticesOf(edges: seq<WeightedEdge>): set<Node>
  {
    (set e | e in edges :: e.source) + (set e | e in edges :: e.target)
  }

  /** Mention i's edges are part of the graph. */
  lemma {:induction false} MentionPhaseHas(mentions: seq<MentionInfo>, n: nat, i: nat, e: WeightedEdge)
    requires n <= |mentions| && WellFormedMentions(mentions) && i < n
    requires e in MentionEdges(mentions[i], i)
    ensures e in MentionPhase(mentions, n)
  {
    MentionPhaseStep(mentions, n - 1);
    if i < n - 1 {
      MentionPhaseHas(mentions, n - 1, i, e);
    }
  }

  /** Every mention is linked to each of its candidates by an edge of the graph. */
  lemma MentionEdgesInGraph(mentions: seq<MentionInfo>, rel: (int, int) -> real)
    requires WellFormedMentions(mentions)
    ensures forall i: nat, e :: i < |mentions| && e in mentions[i].candidates.keys ==>
      WeightedEdge(MentionNode(i), EntityNode(i, e), MentionWeight(mentions[i], e)) in GraphEdges(mentions, rel)
  {
    forall i: nat, e | i < |mentions| && e in mentions[i].candidates.keys
      ensures WeightedEdge(MentionNode(i), EntityNode(i, e), MentionWeight(mentions[i], e)) in GraphEdges(mentions, rel)
    {
      var own := MentionEdges(mentions[i], i);
      var k :| 0 <= k < |mentions[i].candidates.keys| && mentions[i].candidates.keys[k] == e;
      assert own[k] in own;
      MentionPhaseHas(mentions, |mentions|, i, own[k]);
    }
  }

  /** The graph has no vertex exactly when no mention has a candidate. */
  lemma GraphEmptyIff(mentions: seq<MentionInfo>, rel: (int, int) -> real)
    requires WellFormedMentions(mentions)
    ensures VerticesOf(GraphEdges(mentions, rel)) == {} <==>
      forall i :: 0 <= i < |mentions| ==> |mentions[i].candidates.keys| == 0
  {
    var g := GraphEdges(mentions, rel);
    if forall i :: 0 <= i < |mentions| ==> |mentions[i].candidates.keys| == 0 {
      NoCandidatesNoEdges(mentions, |mentions|, rel);
      assert g == [];
    } else {
      var i: nat :| i < |mentions| && |mentions[i].candidates.keys| != 0;
      var e := mentions[i].candidates.keys[0];
      MentionEdgesInGraph(mentions, rel);
      var edge := WeightedEdge(MentionNode(i), EntityNode(i, e), MentionWeight(mentions[i], e));
      assert edge in g;
      assert edge.source in VerticesOf(g);
    }
  }

  lemma {:induction false} NoCandidatesNoEdges(mentions: seq<MentionInfo>, n: nat, rel: (int, int) -> real)
    requires n <= |mentions| && WellFormedMentions(mentions)
    requires forall i :: 0 <= i < |mentions| ==> |mentions[i].candidates.keys| == 0
    ensures MentionPhase(mentions, n) == [] && EntityPhase(mentions, n, rel) == []
  {
    if n > 0 {
      NoCandidatesNoEdges(mentions, n - 1, rel);
      assert MentionPhase(mentions, n) == MentionPhase(mentions, n - 1) + MentionEdges(mentions[n - 1], n - 1);
      assert EntityPhase(mentions, n, rel) == EntityPhase(mentions, n - 1, rel) + CandidatePhase(mentions, n - 1, 0, rel);
    }
  }

  // ---------------------------------------------------------------------------
  // Answers.

  /** The final score of candidate e of mention i: its local compatibility times its stationary score. */
  function FinalScore(m: MentionInfo, i: nat, rank: Node -> real): int -> real
  {
    e => m.candidates.GetOrDefault(e, 0.0) * rank(EntityNode(i, e))
  }

  /** The entity chosen for mention i: the first candidate whose final score beats -1 and every earlier one. */
  function Choice(m: MentionInfo, i: nat, rank: Node -> real): int
  {
    Best(m.candidates.keys, FinalScore(m, i, rank), (-1, -1.0), false).0
  }

  function Choices(mentions: seq<MentionInfo>, rank: Node -> real): (r: seq<int>)
    ensures |r| == |mentions| && forall i :: 0 <= i < |mentions| ==> r[i] == Choice(mentions[i], i, rank)
  {
    seq(|mentions|, i requires 0 <= i < |mentions| => Choice(mentions[i], i, rank))
  }

  /** The solution after the first n mentions: each mention's choice put, in order, under its key. */
  function SolutionOf(mentions: seq<MentionInfo>, n: nat, rank: Node -> real): OrderedMap<MentionKey, int>
    requires n <= |mentions|
  {
    PutAll(MentionKeys(mentions), Choices(mentions, rank), n)
  }

  /**
   * With non-negative final scores, a mention with candidates gets the first candidate of
   * greatest final score; a mention without candidates gets -1.
   */
  lemma ChoiceIsFirstMaximum(m: MentionInfo, i: nat, rank: Node -> real)
    requires forall e :: e in m.candidates.keys ==> FinalScore(m, i, rank)(e) >= 0.0
    ensures |m.candidates.keys| == 0 ==> Choice(m, i, rank) == -1
    ensures |m.candidates.keys| > 0 ==> exists p :: (FirstMaxAt(m.candidates.keys, FinalScore(m, i, rank), p) &&
      Choice(m, i, rank) == m.candidates.keys[p])
  {
    var keys := m.candidates.keys;
    BestStrict(keys, FinalScore(m, i, rank), (-1, -1.0));
    if |keys| > 0 {
      assert FinalScore(m, i, rank)(keys[0]) > -1.0;
    }
  }

  /**
   * The annotations of a solution name, for each mention, the entity chosen for the last mention
   * with its key, at its offset and length; and nothing else.
   */
  lemma SolutionAnnotations(mentions: seq<MentionInfo>, rank: Node -> real, filename: string)
    ensures var r := AnnotationsOf(SolutionOf(mentions, |mentions|, rank), filename);
      (forall i :: 0 <= i < |mentions| && (forall j :: i < j < |mentions| ==> KeyOf(mentions[j]) != KeyOf(mentions[i])) ==>
        Annotation(Choice(mentions[i], i, rank), mentions[i].offset, mentions[i].length, filename) in r) &&
      (forall a :: a in r ==> exists i :: (0 <= i < |mentions| &&
        a == Annotation(Choice(mentions[i], i, rank), mentions[i].offset, mentions[i].length, filename)))
  {
    var keys := MentionKeys(mentions);
    var choices := Choices(mentions, rank);
    var s := SolutionOf(mentions, |mentions|, rank);
    forall i | 0 <= i < |mentions| && (forall j :: i < j < |mentions| ==> KeyOf(mentions[j]) != KeyOf(mentions[i]))
      ensures Annotation(Choice(mentions[i], i, rank), mentions[i].offset, mentions[i].length, filename) in AnnotationsOf(s, filename)
    {
      PutAllLastWins(keys, choices, |mentions|, i);
    }
    forall a | a in AnnotationsOf(s, filename)
      ensures exists i :: (0 <= i < |mentions| &&
        a == Annotation(Choice(mentions[i], i, rank), mentions[i].offset, mentions[i].length, filename))
    {
      var k :| k in s.values && a == Annotation(s.values[k], k.1, k.2, filename);
      PutAllFrom(keys, choices, |mentions|, k);
    }
  }

  // ---------------------------------------------------------------------------
  // The walker.

  class RandomGraphWalk {
    /** The answer of the last solve: null until a non-empty graph has been solved. */
    var solution: Option<OrderedMap<MentionKey, int>>

    /** A solution, once there is one, is a well-formed map. */
    ghost predicate Valid()
      reads this
    {
      solution.Some? ==> solution.value.Valid()
    }

    constructor ()
      ensures solution == None && Valid()
    {
      solution := None;
    }

    /** The edges from a mention to its candidates, in iteration order. */
    static method AddMentionEdges(m: MentionInfo, i: nat) returns (edges: seq<WeightedEdge>)
      requires m.candidates.Valid()
      ensures edges == MentionEdges(m, i)
    {
      var keys := m.candidates.keys;
      var sum := SumScores(m.candidates);
      edges := [];
      var k := 0;
      if sum == 0.0 {
        // No compatibility mass: every candidate gets the rounded 1 / count.
        while k < |keys|
          invariant 0 <= k <= |keys| && |edges| == k
          invariant forall q :: 0 <= q < k ==> edges[q] == MentionEdges(m, i)[q]
        {
          edges := edges + [WeightedEdge(MentionNode(i), EntityNode(i, keys[k]), ZeroMassWeight(|keys|))];
          k := k + 1;
        }
      } else {
        while k < |keys|
          invariant 0 <= k <= |keys| && |edges| == k
          invariant forall q :: 0 <= q < k ==> edges[q] == MentionEdges(m, i)[q]
        {
          edges := edges + [WeightedEdge(MentionNode(i), EntityNode(i, keys[k]), m.candidates.values[keys[k]] / sum)];
          k := k + 1;
        }
      }
    }

    /** computeRelatedness through the cache, for the candidates of mention j, in order. */
    static method RelatedCandidates(j: nat, keys: seq<int>, e1: int, memo: map<(int, int), real>, useMap: bool,
                                    rel: (int, int) -> real)
      returns (targets: seq<(nat, int)>, memo': map<(int, int), real>)
      requires MemoSound(memo, rel) && forall a, b :: rel(a, b) == rel(b, a)
      ensures targets == RelatedIn(j, keys, e1, rel) && MemoSound(memo', rel)
    {
      targets := [];
      memo' := memo;
      var k := 0;
      while k < |keys|
        invariant 0 <= k <= |keys|
        invariant targets == RelatedIn(j, keys[..k], e1, rel) && MemoSound(memo', rel)
      {
        assert keys[..k + 1][..k] == keys[..k];
        RelatednessCacheTransparent(memo', e1, keys[k], useMap, rel);
        var computed := ComputeRelatedness(memo', e1, keys[k], useMap, rel);
        memo' := computed.1;
        if computed.0 > EPS {
          targets := targets + [(j, keys[k])];
        }
        k := k + 1;
      }
      assert keys[..k] == keys;
    }

    /**
     * The summed relatedness of candidate e1 of mention i to every other mention's candidates,
     * counting only values above EPS.
     */
    static method SumRelatedness(mentions: seq<MentionInfo>, i: nat, e1: int, memo: map<(int, int), real>,
                                 useMap: bool, rel: (int, int) -> real)
      returns (sum: real, memo': map<(int, int), real>)
      requires MemoSound(memo, rel) && forall a, b :: rel(a, b) == rel(b, a)
      ensures sum == SumRel(Targets(mentions, i, e1, rel, |mentions|), e1, rel) && MemoSound(memo', rel)
    {
      sum := 0.0;
      memo' := memo;
      for j := 0 to |mentions|
        invariant sum == SumRel(Targets(mentions, i, e1, rel, j), e1, rel) && MemoSound(memo', rel)
      {
        ghost var before := Targets(mentions, i, e1, rel, j);
        var related;
        related, memo' := RelatedOf(mentions, i, e1, j, memo', useMap, rel);
        SumRelAppend(before, related, e1, rel);
        sum := sum + SumRel(related, e1, rel);
      }
    }

    /** One pass of the loop over the mentions: mention j's related candidates, none for mention i itself. */
    static method RelatedOf(mentions: seq<MentionInfo>, i: nat, e1: int, j: nat, memo: map<(int, int), real>,
                            useMap: bool, rel: (int, int) -> real)
      returns (related: seq<(nat, int)>, memo': map<(int, int), real>)
      requires j < |mentions|
      requires MemoSound(memo, rel) && forall a, b :: rel(a, b) == rel(b, a)
      ensures Targets(mentions, i, e1, rel, j + 1) == Targets(mentions, i, e1, rel, j) + related
      ensures MemoSound(memo', rel)
    {
      if j != i {
        related, memo' := RelatedCandidates(j, mentions[j].candidates.keys, e1, memo, useMap, rel);
      } else {
        related, memo' := [], memo;
        assert Targets(mentions, i, e1, rel, j) + related == Targets(mentions, i, e1, rel, j);
      }
    }

    /** The edges out of candidate e1 of mention i, given their total relatedness. */
    static method AddEntityEdges(mentions: seq<MentionInfo>, i: nat, e1: int, total: real,
                                 memo: map<(int, int), real>, useMap: bool, rel: (int, int) -> real)
      returns (edges: seq<WeightedEdge>, memo': map<(int, int), real>)
      requires MemoSound(memo, rel) && forall a, b :: rel(a, b) == rel(b, a)
      requires total == SumRel(Targets(mentions, i, e1, rel, |mentions|), e1, rel)
      ensures edges == EntityEdges(mentions, i, e1, rel) && MemoSound(memo', rel)
    {
      edges := [];
      memo' := memo;
      ghost var done: seq<(nat, int)> := [];
      for j := 0 to |mentions|
        invariant MemoSound(memo', rel) && done == Targets(mentions, i, e1, rel, j)
        invariant total == 0.0 ==> edges == []
        invariant total != 0.0 ==> edges == EdgesTo(i, e1, done, total, rel)
      {
        edges, memo', done := EntityEdgesStep(mentions, i, e1, j, total, memo', useMap, rel, edges, done);
      }
      TargetsTotal(mentions, i, e1, rel);
    }

    /** One pass of the loop over the mentions: the edges to mention j's related candidates appended. */
    static method EntityEdgesStep(mentions: seq<MentionInfo>, i: nat, e1: int, j: nat, total: real,
                                  memo: map<(int, int), real>, useMap: bool, rel: (int, int) -> real,
                                  edges: seq<WeightedEdge>, ghost done: seq<(nat, int)>)
      returns (edges': seq<WeightedEdge>, memo': map<(int, int), real>, ghost done': seq<(nat, int)>)
      requires j < |mentions| && MemoSound(memo, rel) && forall a, b :: rel(a, b) == rel(b, a)
      requires total == SumRel(Targets(mentions, i, e1, rel, |mentions|), e1, rel)
      requires done == Targets(mentions, i, e1, rel, j)
      requires total == 0.0 ==> edges == []
      requires total != 0.0 ==> edges == EdgesTo(i, e1, done, total, rel)
      ensures MemoSound(memo', rel) && done' == Targets(mentions, i, e1, rel, j + 1)
      ensures total == 0.0 ==> edges' == []
      ensures total != 0.0 ==> edges' == EdgesTo(i, e1, done', total, rel)
    {
      var related;
      related, memo' := RelatedOf(mentions, i, e1, j, memo, useMap, rel);
      RelatedNeedsTotal(mentions, i, e1, rel, j, related);
      if total != 0.0 {
        EdgesToConcat(i, e1, done, related, total, rel);
      }
      edges' := AppendEntityEdges(edges, i, e1, related, total, rel);
      done' := done + related;
    }

    /** Appends an edge from candidate e1 of mention i to each related target, weighted relatedness / total. */
    static method AppendEntityEdges(edges: seq<WeightedEdge>, i: nat, e1: int, related: seq<(nat, int)>, total: real,
                                    rel: (int, int) -> real)
      returns (edges': seq<WeightedEdge>)
      requires |related| > 0 ==> total != 0.0
      ensures total == 0.0 ==> edges' == edges
      ensures total != 0.0 ==> edges' == edges + EdgesTo(i, e1, related, total, rel)
    {
      edges' := edges;
      var k := 0;
      while k < |related|
        invariant 0 <= k <= |related|
        invariant total == 0.0 ==> edges' == edges
        invariant total != 0.0 ==> edges' == edges + EdgesTo(i, e1, related[..k], total, rel)
      {
        assert related[..k + 1] == related[..k] + [related[k]];
        EdgesToSnoc(i, e1, related[..k], related[k], total, rel);
        edges' := edges' + [WeightedEdge(EntityNode(i, e1), EntityNode(related[k].0, related[k].1), rel(e1, related[k].1) / total)];
        k := k + 1;
      }
      assert related[..k] == related;
    }

    /**
     * constructGraph: the mention edges of every mention, then, for every candidate of every
     * mention, its edges to related candidates of the other mentions. The relatedness cache is
     * used when the mention edges span fewer than MAP_MAX vertices.
     */
    static method ConstructGraph(mentions: seq<MentionInfo>, rel: (int, int) -> real) returns (edges: seq<WeightedEdge>)
      requires WellFormedMentions(mentions) && forall a, b :: rel(a, b) == rel(b, a)
      ensures edges == GraphEdges(mentions, rel)
    {
      edges := AddAllMentionEdges(mentions);
      var vertexCount := VertexCount(edges);
      var candidateEdges := AddAllCandidateEdges(mentions, vertexCount < MAP_MAX, rel);
      edges := edges + candidateEdges;
    }

    /** The edges out of every candidate of every mention, with a fresh relatedness cache when useMap. */
    static method AddAllCandidateEdges(mentions: seq<MentionInfo>, useMap: bool, rel: (int, int) -> real)
      returns (edges: seq<WeightedEdge>)
      requires forall a, b :: rel(a, b) == rel(b, a)
      ensures edges == EntityPhase(mentions, |mentions|, rel)
    {
      edges := [];
      var memo: map<(int, int), real> := map[];
      var i := 0;
      while i < |mentions|
        invariant 0 <= i <= |mentions| && MemoSound(memo, rel)
        invariant edges == EntityPhase(mentions, i, rel)
      {
        var out;
        out, memo := AddCandidateEdges(mentions, i, memo, useMap, rel);
        EntityPhaseStep(mentions, i, rel);
        edges := edges + out;
        i := i + 1;
      }
    }

    /** graph.getVertexCount(). */
    static method VertexCount(edges: seq<WeightedEdge>) returns (n: nat)
      ensures n == |VerticesOf(edges)|
    {
      n := |VerticesOf(edges)|;
    }

    /** The edges from every mention to its candidates, mention by mention. */
    static method AddAllMentionEdges(mentions: seq<MentionInfo>) returns (edges: seq<WeightedEdge>)
      requires WellFormedMentions(mentions)
      ensures edges == MentionPhase(mentions, |mentions|)
    {
      edges := [];
      var i := 0;
      while i < |mentions|
        invariant 0 <= i <= |mentions| && edges == MentionPhase(mentions, i)
      {
        var own := AddMentionEdges(mentions[i], i);
        edges := edges + own;
        i := i + 1;
      }
    }

    /** The edges out of every candidate of mention i, candidate by candidate. */
    static method AddCandidateEdges(mentions: seq<MentionInfo>, i: nat, memo: map<(int, int), real>, useMap: bool,
                                    rel: (int, int) -> real)
      returns (edges: seq<WeightedEdge>, memo': map<(int, int), real>)
      requires i < |mentions| && MemoSound(memo, rel) && forall a, b :: rel(a, b) == rel(b, a)
      ensures edges == CandidatePhase(mentions, i, |mentions[i].candidates.keys|, rel) && MemoSound(memo', rel)
    {
      var keys := mentions[i].candidates.keys;
      edges := [];
      memo' := memo;
      var k := 0;
      while k < |keys|
        invariant 0 <= k <= |keys| && MemoSound(memo', rel)
        invariant edges == CandidatePhase(mentions, i, k, rel)
      {
        var total, out;
        total, memo' := SumRelatedness(mentions, i, keys[k], memo', useMap, rel);
        out, memo' := AddEntityEdges(mentions, i, keys[k], total, memo', useMap, rel);
        assert CandidatePhase(mentions, i, k + 1, rel) == CandidatePhase(mentions, i, k, rel) + out;
        edges := edges + out;
        k := k + 1;
      }
    }

    /** The best entity of one mention: its first candidate whose final score beats every earlier one and -1. */
    static method ChooseEntity(m: MentionInfo, i: nat, rank: Node -> real) returns (bestEntity: int)
      ensures bestEntity == Choice(m, i, rank)
    {
      var keys := m.candidates.keys;
      bestEntity := -1;
      var bestScore := -1.0;
      var k := 0;
      while k < |keys|
        invariant 0 <= k <= |keys|
        invariant (bestEntity, bestScore) == Best(keys[..k], FinalScore(m, i, rank), (-1, -1.0), false)
      {
        assert keys[..k + 1][..k] == keys[..k];
        var finalScore := m.candidates.GetOrDefault(keys[k], 0.0) * rank(EntityNode(i, keys[k]));
        assert finalScore == FinalScore(m, i, rank)(keys[..k + 1][k]);
        if finalScore > bestScore {
          bestScore := finalScore;
          bestEntity := keys[k];
        }
        k := k + 1;
      }
      assert keys[..k] == keys;
    }

    /** The solution map for the given stationary scores. */
    static method SolutionFor(mentions: seq<MentionInfo>, rank: Node -> real) returns (s: OrderedMap<MentionKey, int>)
      ensures s == SolutionOf(mentions, |mentions|, rank)
    {
      s := Empty();
      var i := 0;
      while i < |mentions|
        invariant 0 <= i <= |mentions| && s == SolutionOf(mentions, i, rank)
      {
        var bestEntity := ChooseEntity(mentions[i], i, rank);
        s := s.Put(KeyOf(mentions[i]), bestEntity);
        i := i + 1;
      }
    }

    /** computeSolution: every mention's choice, put in order into a map keyed by Mention.equals. */
    method ComputeSolution(mentions: seq<MentionInfo>, rank: Node -> real)
      modifies this
      ensures solution == Some(SolutionOf(mentions, |mentions|, rank)) && Valid()
    {
      var s := SolutionFor(mentions, rank);
      solution := Some(s);
    }

    /**
     * solve: builds the graph and, unless it has no vertex, ranks it and computes the solution;
     * an empty graph leaves the previous solution in place.
     */
    method Solve(mentions: seq<MentionInfo>, rel: (int, int) -> real, rank: Node -> real)
      requires WellFormedMentions(mentions) && forall a, b :: rel(a, b) == rel(b, a)
      requires Valid()
      modifies this
      ensures Valid()
      ensures VerticesOf(GraphEdges(mentions, rel)) == {} ==> solution == old(solution)
      ensures VerticesOf(GraphEdges(mentions, rel)) != {} ==> solution == Some(SolutionOf(mentions, |mentions|, rank))
    {
      var graph := ConstructGraph(mentions, rel);
      if |VerticesOf(graph)| == 0 {
        return;
      }
      ComputeSolution(mentions, rank);
    }

    /** getSolutionAnnotations: one annotation per solution entry; no solution is a null dereference. */
    method GetSolutionAnnotations(filename: string) returns (r: Result<set<Annotation>>)
      requires Valid()
      ensures solution.None? ==> r == Err(NullPointer)
      ensures solution.Some? ==> r == Ok(AnnotationsOf(solution.value, filename))
    {
      if solution.None? {
        return Err(NullPointer);
      }
      var annotations := AnnotationsFor(solution.value, filename);
      return Ok(annotations);
    }
  }
}
