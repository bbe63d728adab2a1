/**
 * The inlink index: for each entity, the ascending ids of the entities whose pages link to
 * it. Popularity, cocitation and the guard cases of semantic relatedness are read from it;
 * cocitation counts common linkers with a two-cursor walk over two sorted arrays.
 */
module EntityLinksIndexes {
  import opened Wrappers

  /** entity -> the ids of the entities linking to it; a missing key reads as null. */
  type LinksIndex = map<int, seq<int>>

  predicate StrictlyIncreasing(a: seq<int>)
  {
    forall i, j :: 0 <= i < j < |a| ==> a[i] < a[j]
  }

  function Get(index: LinksIndex, entity: int): Option<seq<int>>
  {
    if entity in index then Some(index[entity]) else None
  }

  // ---------------------------------------------------------------------------
  // intersectSize.

  /** The two-cursor walk from (i, j): a match advances both cursors, otherwise the smaller one advances. */
  function Merge(a: seq<int>, b: seq<int>, i: nat, j: nat): nat
    requires i <= |a| && j <= |b|
    decreases |a| - i + |b| - j
  {
    if i == |a| || j == |b| then 0
    else if a[i] == b[j] then 1 + Merge(a, b, i + 1, j + 1)
    else if a[i] < b[j] then Merge(a, b, i + 1, j)
    else Merge(a, b, i, j + 1)
  }

  /** intersectSize: 0 when either array is null, otherwise the walk from the start. */
  function IntersectSize(a: Option<seq<int>>, b: Option<seq<int>>): nat
  {
    if a.None? || b.None? then 0 else Merge(a.value, b.value, 0, 0)
  }

  /** The reference count: how many elements of a occur in b. */
  function CountIn(a: seq<int>, b: seq<int>): (r: nat)
    ensures r <= |a|
  {
    if |a| == 0 then 0 else (if a[0] in b then 1 else 0) + CountIn(a[1..], b)
  }

  /** The walk never counts more than either remaining array holds. */
  lemma {:induction false} MergeBounded(a: seq<int>, b: seq<int>, i: nat, j: nat)
    requires i <= |a| && j <= |b|
    ensures Merge(a, b, i, j) <= |a| - i && Merge(a, b, i, j) <= |b| - j
    decreases |a| - i + |b| - j
  {
    if i < |a| && j < |b| {
      if a[i] == b[j] {
        MergeBounded(a, b, i + 1, j + 1);
      } else if a[i] < b[j] {
        MergeBounded(a, b, i + 1, j);
      } else {
        MergeBounded(a, b, i, j + 1);
      }
    }
  }

  /** Swapping the arrays swaps the cursors and nothing else. */
  lemma {:induction false} MergeSymmetric(a: seq<int>, b: seq<int>, i: nat, j: nat)
    requires i <= |a| && j <= |b|
    ensures Merge(a, b, i, j) == Merge(b, a, j, i)
    decreases |a| - i + |b| - j
  {
    if i < |a| && j < |b| {
      if a[i] == b[j] {
        MergeSymmetric(a, b, i + 1, j + 1);
      } else if a[i] < b[j] {
        MergeSymmetric(a, b, i + 1, j);
      } else {
        MergeSymmetric(a, b, i, j + 1);
      }
    }
  }

  /** A value below every element of b's tail is not in it. */
  lemma NotInAbove(x: int, b: seq<int>, j: nat)
    requires StrictlyIncreasing(b) && j <= |b|
    requires j < |b| ==> x < b[j]
    ensures x !in b[j..]
  {
  }

  /** Dropping a head that no element of a has does not change how many of a's elements occur. */
  lemma {:induction false} CountInDropHead(a: seq<int>, b: seq<int>)
    requires |b| > 0 && b[0] !in a
    ensures CountIn(a, b) == CountIn(a, b[1..])
  {
    if |a| > 0 {
      assert a[0] in b <==> a[0] in b[1..] by {
        assert b == [b[0]] + b[1..];
      }
      CountInDropHead(a[1..], b);
    }
  }

  /** On strictly increasing arrays the walk counts the elements of a[i..] that occur in b[j..]. */
  lemma {:induction false} MergeCounts(a: seq<int>, b: seq<int>, i: nat, j: nat)
    requires StrictlyIncreasing(a) && StrictlyIncreasing(b)
    requires i <= |a| && j <= |b|
    ensures Merge(a, b, i, j) == CountIn(a[i..], b[j..])
    decreases |a| - i + |b| - j
  {
    if i == |a| {
    } else if j == |b| {
      assert b[j..] == [];
      CountInNone(a[i..]);
    } else {
      assert a[i..][1..] == a[i + 1..];
      if a[i] == b[j] {
        MergeCounts(a, b, i + 1, j + 1);
        NotInAbove(b[j], a, i + 1);
        CountInDropHead(a[i + 1..], b[j..]);
        assert b[j..][1..] == b[j + 1..];
      } else if a[i] < b[j] {
        MergeCounts(a, b, i + 1, j);
        NotInAbove(a[i], b, j);
      } else {
        MergeCounts(a, b, i, j + 1);
        NotInAbove(b[j], a, i);
        CountInDropHead(a[i..], b[j..]);
        assert b[j..][1..] == b[j + 1..];
      }
    }
  }

  lemma {:induction false} CountInNone(a: seq<int>)
    ensures CountIn(a, []) == 0
  {
    if |a| > 0 {
      CountInNone(a[1..]);
    }
  }

  /**
   * intersectSize is 0 for a null array; on strictly increasing arrays it is the number of
   * common elements; it is symmetric and at most the shorter array's length.
   */
  lemma IntersectSizeMeaning(a: Option<seq<int>>, b: Option<seq<int>>)
    ensures a.None? || b.None? ==> IntersectSize(a, b) == 0
    ensures IntersectSize(a, b) == IntersectSize(b, a)
    ensures a.Some? && b.Some? ==> IntersectSize(a, b) <= |a.value| && IntersectSize(a, b) <= |b.value|
    ensures a.Some? && b.Some? && StrictlyIncreasing(a.value) && StrictlyIncreasing(b.value) ==>
      IntersectSize(a, b) == CountIn(a.value, b.value)
  {
    if a.Some? && b.Some? {
      MergeSymmetric(a.value, b.value, 0, 0);
      MergeBounded(a.value, b.value, 0, 0);
      if StrictlyIncreasing(a.value) && StrictlyIncreasing(b.value) {
        MergeCounts(a.value, b.value, 0, 0);
        assert a.value[0..] == a.value && b.value[0..] == b.value;
      }
    }
  }

  /** The loop of intersectSize. */
  method IntersectSizeLoop(a: Option<seq<int>>, b: Option<seq<int>>) returns (result: int)
    ensures result == IntersectSize(a, b)
  {
    if a.None? || b.None? {
      return 0;
    }
    var xs, ys := a.value, b.value;
    result := 0;
    var i, j := 0, 0;
    while i < |xs| && j < |ys|
      invariant 0 <= i <= |xs| && 0 <= j <= |ys|
      invariant result + Merge(xs, ys, i, j) == Merge(xs, ys, 0, 0)
      decreases |xs| - i + |ys| - j
    {
      if xs[i] == ys[j] {
        result, i, j := result + 1, i + 1, j + 1;
      } else if xs[i] < ys[j] {
        i := i + 1;
      } else {
        j := j + 1;
      }
    }
  }

  // ---------------------------------------------------------------------------
  // Popularity, cocitation and relatedness.

  /** getPopularity: one more than the number of inlinks, 1 for an entity without an entry. */
  function Popularity(index: LinksIndex, entity: int): (r: int)
    ensures r >= 1
    ensures entity !in index ==> r == 1
    ensures entity in index ==> r == 1 + |index[entity]|
  {
    1 + (if entity in index then |index[entity]| else 0)
  }

  /** getCocitation: an entity's popularity with itself, otherwise the size of the inlink intersection. */
  function Cocitation(index: LinksIndex, entity1: int, entity2: int): int
  {
    if entity1 == entity2 then Popularity(index, entity1)
    else IntersectSize(Get(index, entity1), Get(index, entity2))
  }

  /**
   * Cocitation is symmetric, at least 1 for an entity with itself, and otherwise the number
   * of linkers the two entities share when the inlink arrays are sorted.
   */
  lemma CocitationMeaning(index: LinksIndex, entity1: int, entity2: int)
    ensures Cocitation(index, entity1, entity2) == Cocitation(index, entity2, entity1)
    ensures entity1 == entity2 ==> Cocitation(index, entity1, entity2) >= 1
    ensures entity1 != entity2 && (entity1 !in index || entity2 !in index) ==> Cocitation(index, entity1, entity2) == 0
    ensures (entity1 != entity2 && entity1 in index && entity2 in index &&
      StrictlyIncreasing(index[entity1]) && StrictlyIncreasing(index[entity2])) ==>
      Cocitation(index, entity1, entity2) == CountIn(index[entity1], index[entity2])
  {
    IntersectSizeMeaning(Get(index, entity1), Get(index, entity2));
  }

  method GetCocitation(index: LinksIndex, entity1: int, entity2: int) returns (r: int)
    ensures r == Cocitation(index, entity1, entity2)
  {
    if entity1 == entity2 {
      return Popularity(index, entity1);
    }
    r := IntersectSizeLoop(Get(index, entity1), Get(index, entity2));
  }

  /**
   * getSemanticRelatedness. `logFormula(maxLength, minLength, common)` stands for the
   * logarithmic formula applied when the entities are distinct and share a linker.
   */
  function Relatedness(index: LinksIndex, entity1: int, entity2: int, logFormula: (int, int, int) -> real): real
  {
    if entity1 == entity2 then 1.0
    else
      var common := IntersectSize(Get(index, entity1), Get(index, entity2));
      if common == 0 then 0.0
      else
        var a, b := |index[entity1]|, |index[entity2]|;
        logFormula(if a > b then a else b, if a < b then a else b, common)
  }

  /**
   * An entity is fully related to itself; distinct entities with no common linker, including
   * entities without an entry, are unrelated; otherwise the formula decides, on the same
   * arguments in either order.
   */
  lemma RelatednessGuards(index: LinksIndex, entity1: int, entity2: int, logFormula: (int, int, int) -> real)
    ensures entity1 == entity2 ==> Relatedness(index, entity1, entity2, logFormula) == 1.0
    ensures entity1 != entity2 && (entity1 !in index || entity2 !in index) ==> Relatedness(index, entity1, entity2, logFormula) == 0.0
    ensures entity1 != entity2 && Cocitation(index, entity1, entity2) == 0 ==> Relatedness(index, entity1, entity2, logFormula) == 0.0
    ensures Relatedness(index, entity1, entity2, logFormula) == Relatedness(index, entity2, entity1, logFormula)
  {
    IntersectSizeMeaning(Get(index, entity1), Get(index, entity2));
  }

  method GetSemanticRelatedness(index: LinksIndex, entity1: int, entity2: int, logFormula: (int, int, int) -> real) returns (r: real)
    ensures r == Relatedness(index, entity1, entity2, logFormula)
  {
    if entity1 == entity2 {
      return 1.0;
    }
    var a := Get(index, entity1);
    var b := Get(index, entity2);
    var common := IntersectSizeLoop(a, b);
    if common == 0 {
      return 0.0;
    }
    var la, lb := |a.value|, |b.value|;
    r := logFormula(if la > lb then la else lb, if la < lb then la else lb, common);
  }
}
