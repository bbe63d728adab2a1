/**
 * The cocitation counts of the candidate pairs of a document: for every two mentions i < j,
 * every candidate pair, equal entities included, stores the link index's count under its
 * unordered key. The count itself is a parameter.
 */
module CocitationMaps {
  import opened Wrappers
  import opened Mentions
  import opened CandidatePairs

  /** What the constructor stores for a candidate pair: always its cocitation count. */
  function Entry(cocitation: (int, int) -> int): ((int, int)) -> Option<int>
  {
    (p: (int, int)) => Some(cocitation(p.0, p.1))
  }

  /** The pairs the constructor stores for a document's mentions. */
  function Filled(mentions: seq<MentionInfo>, cocitation: (int, int) -> int): map<(int, int), int>
  {
    Store(map[], AllPairs(CandidateLists(mentions), |mentions|), Entry(cocitation))
  }

  datatype CocitationMap = CocitationMap(pairs: map<(int, int), int>) {
    /** CocitationMap.get: the stored count of the pair in either order, 0 for a pair not stored. */
    function Get(e1: int, e2: int): int
    {
      if Key((e1, e2)) in pairs then pairs[Key((e1, e2))] else 0
    }
  }

  /** The constructor: the loops over every two mentions i < j and their candidates. */
  method Build(mentions: seq<MentionInfo>, cocitation: (int, int) -> int) returns (r: CocitationMap)
    ensures r.pairs == Filled(mentions, cocitation)
  {
    var pairs := StoreAll(CandidateLists(mentions), Entry(cocitation));
    r := CocitationMap(pairs);
  }

  lemma GetSymmetric(r: CocitationMap, e1: int, e2: int)
    ensures r.Get(e1, e2) == r.Get(e2, e1)
  {
    assert Key((e1, e2)) == Key((e2, e1));
  }

  /**
   * A lookup in a filled map returns 0 for a pair that no two mentions i < j offer as
   * candidates, and otherwise the index's count of such a candidate pair with the same
   * unordered key.
   */
  lemma {:induction false} FilledSound(mentions: seq<MentionInfo>, cocitation: (int, int) -> int, e1: int, e2: int)
    ensures var r := CocitationMap(Filled(mentions, cocitation)).Get(e1, e2);
      (Key((e1, e2)) !in Filled(mentions, cocitation) && r == 0) ||
      exists i, j, c1, c2 :: (0 <= i < j < |mentions| && c1 in mentions[i].candidates.keys &&
        c2 in mentions[j].candidates.keys && Key((c1, c2)) == Key((e1, e2)) && r == cocitation(c1, c2))
  {
    var cands := CandidateLists(mentions);
    var ps := AllPairs(cands, |mentions|);
    var m := Filled(mentions, cocitation);
    var k := Key((e1, e2));
    if k in m {
      StoreFrom(map[], ps, Entry(cocitation), k);
      var q :| 0 <= q < |ps| && Key(ps[q]) == k && Entry(cocitation)(ps[q]) == Some(m[k]);
      var i, j := AllPairsFrom(cands, |mentions|, ps[q]);
      assert ps[q].0 in mentions[i].candidates.keys && ps[q].1 in mentions[j].candidates.keys;
    }
  }

  /**
   * Every candidate pair of mentions i < j, equal entities included, is stored, and reads as
   * exactly its count when the count is symmetric.
   */
  lemma {:induction false} FilledComplete(mentions: seq<MentionInfo>, cocitation: (int, int) -> int, i: nat, j: nat, a: nat, b: nat)
    requires i < j < |mentions| && a < |mentions[i].candidates.keys| && b < |mentions[j].candidates.keys|
    ensures var c1, c2 := mentions[i].candidates.keys[a], mentions[j].candidates.keys[b];
      Key((c1, c2)) in Filled(mentions, cocitation) &&
      ((forall x, y :: cocitation(x, y) == cocitation(y, x)) ==>
        CocitationMap(Filled(mentions, cocitation)).Get(c1, c2) == cocitation(c1, c2))
  {
    var c1, c2 := mentions[i].candidates.keys[a], mentions[j].candidates.keys[b];
    var cands := CandidateLists(mentions);
    var ps := AllPairs(cands, |mentions|);
    var m := Filled(mentions, cocitation);
    AllPairsHas(cands, |mentions|, i, j, a, b);
    var q0 :| 0 <= q0 < |ps| && ps[q0] == (c1, c2);
    StoreHas(map[], ps, Entry(cocitation), q0);
    var k := Key((c1, c2));
    StoreFrom(map[], ps, Entry(cocitation), k);
    var q :| 0 <= q < |ps| && Key(ps[q]) == k && Entry(cocitation)(ps[q]) == Some(m[k]);
    if forall x, y :: cocitation(x, y) == cocitation(y, x) {
      assert cocitation(ps[q].0, ps[q].1) == cocitation(c1, c2);
    }
  }
}
