/**
 * The semantic relatedness of the candidate pairs of a document, computed once when the
 * scorer is built: only pairs of distinct entities whose relatedness reaches EPS are kept.
 * The relatedness measure of the link index is a parameter.
 */
module RelatednessMaps {
  import opened Wrappers
  import opened Mentions
  import opened CandidatePairs

  /** Pairs less related than this are not stored, so they read as 0. */
  const EPS: real := 0.000001

  /** What the constructor stores for a candidate pair: the relatedness of two distinct entities, if at least EPS. */
  function Entry(relatedness: (int, int) -> real): ((int, int)) -> Option<real>
  {
    (p: (int, int)) => if p.0 != p.1 && relatedness(p.0, p.1) >= EPS then Some(relatedness(p.0, p.1)) else None
  }

  /** The pairs the constructor stores for a document's mentions. */
  function Filled(mentions: seq<MentionInfo>, relatedness: (int, int) -> real): map<(int, int), real>
  {
    Store(map[], AllPairs(CandidateLists(mentions), |mentions|), Entry(relatedness))
  }

  datatype RelatednessMap = RelatednessMap(pairs: map<(int, int), real>) {
    /** RelatednessMap.get: 1 for an entity with itself, the stored value for a pair, 0 for a pair not stored. */
    function Get(e1: int, e2: int): real
    {
      if e1 == e2 then 1.0
      else if Key((e1, e2)) in pairs then pairs[Key((e1, e2))]
      else 0.0
    }
  }

  /** The constructor: the loops over every two mentions i < j and their candidates. */
  method Build(mentions: seq<MentionInfo>, relatedness: (int, int) -> real) returns (r: RelatednessMap)
    ensures r.pairs == Filled(mentions, relatedness)
  {
    var pairs := StoreAll(CandidateLists(mentions), Entry(relatedness));
    r := RelatednessMap(pairs);
  }

  /** get is symmetric, and an entity is fully related to itself whatever the map holds. */
  lemma GetSymmetric(r: RelatednessMap, e1: int, e2: int)
    ensures r.Get(e1, e2) == r.Get(e2, e1)
    ensures r.Get(e1, e1) == 1.0
  {
    assert Key((e1, e2)) == Key((e2, e1));
  }

  /**
   * What a lookup of two distinct entities returns from a filled map: 0, or a value of at
   * least EPS that is the relatedness of a candidate pair of two mentions i < j with the
   * same unordered key.
   */
  lemma {:induction false} FilledSound(mentions: seq<MentionInfo>, relatedness: (int, int) -> real, e1: int, e2: int)
    requires e1 != e2
    ensures var r := RelatednessMap(Filled(mentions, relatedness)).Get(e1, e2);
      r == 0.0 ||
      (r >= EPS && exists i, j, c1, c2 :: (0 <= i < j < |mentions| && c1 in mentions[i].candidates.keys &&
        c2 in mentions[j].candidates.keys && c1 != c2 && Key((c1, c2)) == Key((e1, e2)) && r == relatedness(c1, c2)))
  {
    var cands := CandidateLists(mentions);
    var ps := AllPairs(cands, |mentions|);
    var m := Filled(mentions, relatedness);
    var k := Key((e1, e2));
    if k in m {
      StoreFrom(map[], ps, Entry(relatedness), k);
      var q :| 0 <= q < |ps| && Key(ps[q]) == k && Entry(relatedness)(ps[q]) == Some(m[k]);
      var i, j := AllPairsFrom(cands, |mentions|, ps[q]);
      assert ps[q].0 in mentions[i].candidates.keys && ps[q].1 in mentions[j].candidates.keys;
    }
  }

  /**
   * Every candidate pair of two distinct entities of mentions i < j whose relatedness reaches
   * EPS reads as at least EPS, and as exactly its relatedness when the measure is symmetric.
   */
  lemma {:induction false} FilledComplete(mentions: seq<MentionInfo>, relatedness: (int, int) -> real, i: nat, j: nat, a: nat, b: nat)
    requires i < j < |mentions| && a < |mentions[i].candidates.keys| && b < |mentions[j].candidates.keys|
    requires mentions[i].candidates.keys[a] != mentions[j].candidates.keys[b]
    requires relatedness(mentions[i].candidates.keys[a], mentions[j].candidates.keys[b]) >= EPS
    ensures var c1, c2 := mentions[i].candidates.keys[a], mentions[j].candidates.keys[b];
      var r := RelatednessMap(Filled(mentions, relatedness)).Get(c1, c2);
      r >= EPS && ((forall x, y :: relatedness(x, y) == relatedness(y, x)) ==> r == relatedness(c1, c2))
  {
    var c1, c2 := mentions[i].candidates.keys[a], mentions[j].candidates.keys[b];
    var cands := CandidateLists(mentions);
    var ps := AllPairs(cands, |mentions|);
    var m := Filled(mentions, relatedness);
    AllPairsHas(cands, |mentions|, i, j, a, b);
    var q0 :| 0 <= q0 < |ps| && ps[q0] == (c1, c2);
    StoreHas(map[], ps, Entry(relatedness), q0);
    var k := Key((c1, c2));
    StoreFrom(map[], ps, Entry(relatedness), k);
    var q :| 0 <= q < |ps| && Key(ps[q]) == k && Entry(relatedness)(ps[q]) == Some(m[k]);
    if forall x, y :: relatedness(x, y) == relatedness(y, x) {
      assert relatedness(ps[q].0, ps[q].1) == relatedness(c1, c2);
    }
  }
}
