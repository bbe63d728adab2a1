/**
 * The loop shared by the pairwise maps of loopy belief propagation: for every two mentions
 * i < j of the document, every candidate of i paired with every candidate of j, in iteration
 * order; each pair may store one entry under its unordered key (min, max).
 */
module CandidatePairs {
  import opened Wrappers
  import opened Mentions

  /** The candidate entities of each mention, in iteration order. */
  function CandidateLists(mentions: seq<MentionInfo>): (r: seq<seq<int>>)
    ensures |r| == |mentions| && forall i :: 0 <= i < |mentions| ==> r[i] == mentions[i].candidates.keys
  {
    seq(|mentions|, i requires 0 <= i < |mentions| => mentions[i].candidates.keys)
  }

  /** The innermost loop: candidate c1 paired with each of c2s. */
  function Row(c1: int, c2s: seq<int>): (r: seq<(int, int)>)
    ensures |r| == |c2s|
  {
    seq(|c2s|, k requires 0 <= k < |c2s| => (c1, c2s[k]))
  }

  /** The first n candidates of one mention, each paired with every candidate of another. */
  function Block(c1s: seq<int>, c2s: seq<int>, n: nat): seq<(int, int)>
    requires n <= |c1s|
  {
    if n == 0 then [] else Block(c1s, c2s, n - 1) + Row(c1s[n - 1], c2s)
  }

  /** Mention i's candidate pairs with the mentions j, i < j < n. */
  function MentionRow(cands: seq<seq<int>>, i: nat, n: nat): seq<(int, int)>
    requires i < |cands| && n <= |cands|
  {
    if n <= i + 1 then [] else MentionRow(cands, i, n - 1) + Block(cands[i], cands[n - 1], |cands[i]|)
  }

  /** All candidate pairs of mentions i < j with i < n, in loop order. */
  function AllPairs(cands: seq<seq<int>>, n: nat): seq<(int, int)>
    requires n <= |cands|
  {
    if n == 0 then [] else AllPairs(cands, n - 1) + MentionRow(cands, n - 1, |cands|)
  }

  /** PairOfInts(min, max): the key under which both orders of a pair are stored. */
  function Key(p: (int, int)): (k: (int, int))
    ensures k.0 <= k.1 && {k.0, k.1} == {p.0, p.1}
  {
    if p.0 <= p.1 then p else (p.1, p.0)
  }

  /** The map after visiting the pairs ps in order, storing entry(p), when there is one, under Key(p). */
  function Store<V>(m: map<(int, int), V>, ps: seq<(int, int)>, entry: ((int, int)) -> Option<V>): map<(int, int), V>
  {
    if |ps| == 0 then m
    else
      var prev := Store(m, ps[..|ps| - 1], entry);
      var p := ps[|ps| - 1];
      match entry(p)
      case Some(v) => prev[Key(p) := v]
      case None => prev
  }

  lemma {:induction false} StoreConcat<V>(m: map<(int, int), V>, a: seq<(int, int)>, b: seq<(int, int)>, entry: ((int, int)) -> Option<V>)
    ensures Store(m, a + b, entry) == Store(Store(m, a, entry), b, entry)
  {
    if |b| == 0 {
      assert a + b == a;
    } else {
      StoreConcat(m, a, b[..|b| - 1], entry);
      assert (a + b)[..|a + b| - 1] == a + b[..|b| - 1];
    }
  }

  /** A pair with an entry is stored under its key, unless a later pair with the same key overwrites it. */
  lemma {:induction false} StoreHas<V>(m: map<(int, int), V>, ps: seq<(int, int)>, entry: ((int, int)) -> Option<V>, q: nat)
    requires q < |ps| && entry(ps[q]).Some?
    ensures Key(ps[q]) in Store(m, ps, entry)
    ensures (forall r :: q < r < |ps| ==> Key(ps[r]) != Key(ps[q])) ==>
      Store(m, ps, entry)[Key(ps[q])] == entry(ps[q]).value
  {
    if q < |ps| - 1 {
      StoreHas(m, ps[..|ps| - 1], entry, q);
    }
  }

  /** Every stored key comes from the initial map or holds the entry of some pair with that key. */
  lemma {:induction false} StoreFrom<V>(m: map<(int, int), V>, ps: seq<(int, int)>, entry: ((int, int)) -> Option<V>, k: (int, int))
    requires k in Store(m, ps, entry)
    ensures (k in m && Store(m, ps, entry)[k] == m[k]) ||
      exists q :: 0 <= q < |ps| && Key(ps[q]) == k && entry(ps[q]) == Some(Store(m, ps, entry)[k])
  {
    if |ps| > 0 {
      var p := ps[|ps| - 1];
      if entry(p).Some? && Key(p) == k {
        assert entry(ps[|ps| - 1]) == Some(Store(m, ps, entry)[k]);
      } else {
        StoreFrom(m, ps[..|ps| - 1], entry, k);
        var prefix := ps[..|ps| - 1];
        if !(k in m && Store(m, prefix, entry)[k] == m[k]) {
          var q :| 0 <= q < |prefix| && Key(prefix[q]) == k && entry(prefix[q]) == Some(Store(m, prefix, entry)[k]);
          assert ps[q] == prefix[q];
        }
      }
    }
  }

  // ---------------------------------------------------------------------------
  // Which pairs the loops visit.

  lemma InLeft<T>(s: seq<T>, u: seq<T>, x: T)
    requires x in s
    ensures x in s + u
  {
  }

  lemma InRight<T>(s: seq<T>, u: seq<T>, x: T)
    requires x in u
    ensures x in s + u
  {
  }

  lemma {:induction false} BlockHas(c1s: seq<int>, c2s: seq<int>, n: nat, a: nat, b: nat)
    requires a < n <= |c1s| && b < |c2s|
    ensures (c1s[a], c2s[b]) in Block(c1s, c2s, n)
  {
    if a < n - 1 {
      BlockHas(c1s, c2s, n - 1, a, b);
    } else {
      assert Row(c1s[a], c2s)[b] == (c1s[a], c2s[b]);
    }
  }

  lemma {:induction false} BlockFrom(c1s: seq<int>, c2s: seq<int>, n: nat, p: (int, int))
    requires n <= |c1s| && p in Block(c1s, c2s, n)
    ensures p.0 in c1s && p.1 in c2s
  {
    if p !in Row(c1s[n - 1], c2s) {
      BlockFrom(c1s, c2s, n - 1, p);
    }
  }

  lemma {:induction false} MentionRowHas(cands: seq<seq<int>>, i: nat, n: nat, j: nat, a: nat, b: nat)
    requires i < j < n <= |cands| && a < |cands[i]| && b < |cands[j]|
    ensures (cands[i][a], cands[j][b]) in MentionRow(cands, i, n)
  {
    var x := (cands[i][a], cands[j][b]);
    var prev := MentionRow(cands, i, n - 1);
    var block := Block(cands[i], cands[n - 1], |cands[i]|);
    if j < n - 1 {
      MentionRowHas(cands, i, n - 1, j, a, b);
      InLeft(prev, block, x);
    } else {
      BlockHas(cands[i], cands[j], |cands[i]|, a, b);
      InRight(prev, block, x);
    }
  }

  /** A pair of mention i's row comes from i and some later mention j, which is returned. */
  lemma {:induction false} MentionRowFrom(cands: seq<seq<int>>, i: nat, n: nat, p: (int, int)) returns (j: nat)
    requires i < |cands| && n <= |cands| && p in MentionRow(cands, i, n)
    ensures i < j < n && p.0 in cands[i] && p.1 in cands[j]
  {
    var prev := MentionRow(cands, i, n - 1);
    var block := Block(cands[i], cands[n - 1], |cands[i]|);
    if p in prev {
      j := MentionRowFrom(cands, i, n - 1, p);
    } else {
      BlockFrom(cands[i], cands[n - 1], |cands[i]|, p);
      j := n - 1;
    }
  }

  /** The loops visit every candidate pair of every two mentions i < j ... */
  lemma {:induction false} AllPairsHas(cands: seq<seq<int>>, n: nat, i: nat, j: nat, a: nat, b: nat)
    requires i < n <= |cands| && i < j < |cands| && a < |cands[i]| && b < |cands[j]|
    ensures (cands[i][a], cands[j][b]) in AllPairs(cands, n)
  {
    var x := (cands[i][a], cands[j][b]);
    var prev := AllPairs(cands, n - 1);
    var row := MentionRow(cands, n - 1, |cands|);
    if i < n - 1 {
      AllPairsHas(cands, n - 1, i, j, a, b);
      InLeft(prev, row, x);
    } else {
      MentionRowHas(cands, i, |cands|, j, a, b);
      InRight(prev, row, x);
    }
  }

  /** ... and nothing else: a visited pair comes from mentions i < j, which are returned. */
  lemma {:induction false} AllPairsFrom(cands: seq<seq<int>>, n: nat, p: (int, int)) returns (i: nat, j: nat)
    requires n <= |cands| && p in AllPairs(cands, n)
    ensures i < j < |cands| && i < n && p.0 in cands[i] && p.1 in cands[j]
  {
    var prev := AllPairs(cands, n - 1);
    var row := MentionRow(cands, n - 1, |cands|);
    if p in prev {
      i, j := AllPairsFrom(cands, n - 1, p);
    } else {
      i := n - 1;
      j := MentionRowFrom(cands, n - 1, |cands|, p);
    }
  }

  // ---------------------------------------------------------------------------
  // The constructors' nested loops.

  method StoreRow<V>(m0: map<(int, int), V>, c1: int, c2s: seq<int>, entry: ((int, int)) -> Option<V>) returns (m: map<(int, int), V>)
    ensures m == Store(m0, Row(c1, c2s), entry)
  {
    m := m0;
    for k := 0 to |c2s|
      invariant m == Store(m0, Row(c1, c2s)[..k], entry)
    {
      assert Row(c1, c2s)[..k + 1][..k] == Row(c1, c2s)[..k];
      match entry((c1, c2s[k]))
      case Some(v) => m := m[Key((c1, c2s[k])) := v];
      case None =>
    }
    assert Row(c1, c2s)[..|c2s|] == Row(c1, c2s);
  }

  method StoreBlock<V>(m0: map<(int, int), V>, c1s: seq<int>, c2s: seq<int>, entry: ((int, int)) -> Option<V>) returns (m: map<(int, int), V>)
    ensures m == Store(m0, Block(c1s, c2s, |c1s|), entry)
  {
    m := m0;
    for k := 0 to |c1s|
      invariant m == Store(m0, Block(c1s, c2s, k), entry)
    {
      m := StoreRow(m, c1s[k], c2s, entry);
      StoreConcat(m0, Block(c1s, c2s, k), Row(c1s[k], c2s), entry);
    }
  }

  lemma StoreMentionRowStep<V>(m0: map<(int, int), V>, cands: seq<seq<int>>, i: nat, j: nat, entry: ((int, int)) -> Option<V>)
    requires i < j < |cands|
    ensures Store(m0, MentionRow(cands, i, j + 1), entry) ==
      Store(Store(m0, MentionRow(cands, i, j), entry), Block(cands[i], cands[j], |cands[i]|), entry)
  {
    StoreConcat(m0, MentionRow(cands, i, j), Block(cands[i], cands[j], |cands[i]|), entry);
  }

  method StoreMentionRow<V>(m0: map<(int, int), V>, cands: seq<seq<int>>, i: nat, entry: ((int, int)) -> Option<V>) returns (m: map<(int, int), V>)
    requires i < |cands|
    ensures m == Store(m0, MentionRow(cands, i, |cands|), entry)
  {
    m := m0;
    assert MentionRow(cands, i, i + 1) == [];
    var c1s := cands[i];
    for j := i + 1 to |cands|
      invariant m == Store(m0, MentionRow(cands, i, j), entry)
    {
      var c2s := cands[j];
      m := StoreBlock(m, c1s, c2s, entry);
      StoreMentionRowStep(m0, cands, i, j, entry);
    }
  }

  lemma StoreAllPairsStep<V>(cands: seq<seq<int>>, i: nat, entry: ((int, int)) -> Option<V>)
    requires i < |cands|
    ensures Store(map[], AllPairs(cands, i + 1), entry) ==
      Store(Store(map[], AllPairs(cands, i), entry), MentionRow(cands, i, |cands|), entry)
  {
    StoreConcat(map[], AllPairs(cands, i), MentionRow(cands, i, |cands|), entry);
  }

  /** The constructors' loops: every mention i, every later mention j, every candidate pair. */
  method StoreAll<V>(cands: seq<seq<int>>, entry: ((int, int)) -> Option<V>) returns (m: map<(int, int), V>)
    ensures m == Store(map[], AllPairs(cands, |cands|), entry)
  {
    m := map[];
    for i := 0 to |cands|
      invariant m == Store(map[], AllPairs(cands, i), entry)
    {
      m := StoreMentionRow(m, cands, i, entry);
      StoreAllPairsStep(cands, i, entry);
    }
  }
}
