/**
 * The counting steps the index-building reducers share: an HMapII incremented once per
 * value, the candidate cutoff over its entries sorted by frequency, and the TreeSet that
 * lists distinct ids in ascending order.
 */
module FrequencyMaps {

  // ---------------------------------------------------------------------------
  // HMapII.increment over the values.

  /** The number of times v occurs among the values. */
  function Occurrences(values: seq<int>, v: int): (n: nat)
    ensures n <= |values|
    ensures n > 0 <==> v in values
  {
    if |values| == 0 then 0
    else
      var init := values[..|values| - 1];
      assert values == init + [values[|values| - 1]];
      Occurrences(init, v) + (if values[|values| - 1] == v then 1 else 0)
  }

  /** The map the increments leave: every value seen, with its number of occurrences. */
  function Frequencies(values: seq<int>): (freq: map<int, int>)
    ensures forall v :: v in freq <==> v in values
    ensures forall v :: v in freq ==> freq[v] == Occurrences(values, v)
    ensures forall v :: v in freq ==> 1 <= freq[v] <= |values|
  {
    if |values| == 0 then map[]
    else
      var init, last := values[..|values| - 1], values[|values| - 1];
      assert values == init + [last];
      var before := Frequencies(init);
      before[last := (if last in before then before[last] else 0) + 1]
  }

  lemma FrequenciesStep(values: seq<int>, i: nat)
    requires i < |values|
    ensures var before := Frequencies(values[..i]);
      Frequencies(values[..i + 1]) == before[values[i] := (if values[i] in before then before[values[i]] else 0) + 1]
  {
    assert values[..i + 1][..i] == values[..i];
  }

  /** The reducers' counting loop: one increment per value, and the number of values. */
  method CountValues(values: seq<int>) returns (freq: map<int, int>, total: int)
    ensures freq == Frequencies(values) && total == |values|
  {
    freq, total := map[], 0;
    for i := 0 to |values|
      invariant freq == Frequencies(values[..i]) && total == i
    {
      FrequenciesStep(values, i);
      freq := freq[values[i] := (if values[i] in freq then freq[values[i]] else 0) + 1];
      total := total + 1;
    }
    assert values[..|values|] == values;
  }

  /** The occurrences of the listed keys, added up. */
  function SumOccurrences(keys: seq<int>, values: seq<int>): nat
  {
    if |keys| == 0 then 0
    else SumOccurrences(keys[..|keys| - 1], values) + Occurrences(values, keys[|keys| - 1])
  }

  lemma {:induction false} SumOccurrencesSnoc(keys: seq<int>, values: seq<int>, v: int)
    ensures SumOccurrences(keys, values + [v]) == SumOccurrences(keys, values) + Occurrences(keys, v)
  {
    var t := values + [v];
    assert t[..|t| - 1] == values;
    if |keys| > 0 {
      SumOccurrencesSnoc(keys[..|keys| - 1], values, v);
    }
  }

  /** A key listed once occurs once. */
  lemma {:induction false} OccursOnce(keys: seq<int>, v: int)
    requires forall i, j :: 0 <= i < j < |keys| ==> keys[i] != keys[j]
    ensures Occurrences(keys, v) == (if v in keys then 1 else 0)
  {
    if |keys| > 0 {
      var init := keys[..|keys| - 1];
      OccursOnce(init, v);
      assert keys == init + [keys[|keys| - 1]];
      if keys[|keys| - 1] == v {
        assert v !in init;
      }
    }
  }

  /** Over distinct keys that list every value, the occurrences add up to the number of values. */
  lemma {:induction false} SumOccurrencesAll(keys: seq<int>, values: seq<int>)
    requires forall i, j :: 0 <= i < j < |keys| ==> keys[i] != keys[j]
    requires forall v :: v in values ==> v in keys
    ensures SumOccurrences(keys, values) == |values|
  {
    if |values| == 0 {
      SumOccurrencesNone(keys);
    } else {
      var init, v := values[..|values| - 1], values[|values| - 1];
      assert values == init + [v];
      SumOccurrencesAll(keys, init);
      SumOccurrencesSnoc(keys, init, v);
      OccursOnce(keys, v);
    }
  }

  lemma {:induction false} SumOccurrencesNone(keys: seq<int>)
    ensures SumOccurrences(keys, []) == 0
  {
    if |keys| > 0 {
      SumOccurrencesNone(keys[..|keys| - 1]);
    }
  }

  // ---------------------------------------------------------------------------
  // The candidate cutoff over getEntriesSortedByValue.

  /** The share of a name's links an entity needs to stay a candidate. */
  const LIMIT_CANDIDATES: real := 0.02

  /** frequency >= total * LIMIT_CANDIDATES, the negation of the loop's break test. */
  predicate Passes(frequency: int, total: int)
  {
    frequency as real >= total as real * LIMIT_CANDIDATES
  }

  /** The order getEntriesSortedByValue gives: each key once, frequencies never increasing. */
  predicate SortedByFrequency(order: seq<int>, freq: map<int, int>)
  {
    (forall i, j :: 0 <= i < j < |order| ==> order[i] != order[j]) &&
    (forall i :: 0 <= i < |order| ==> order[i] in freq) &&
    (forall i, j :: 0 <= i < j < |order| ==> freq[order[i]] >= freq[order[j]])
  }

  /** The entries taken before the first one below the cutoff. */
  function TopPrefix(order: seq<int>, freq: map<int, int>, total: int): (r: seq<int>)
    ensures |r| <= |order| && r == order[..|r|]
    ensures forall k :: k in r ==> k in freq
  {
    if |order| == 0 || order[0] !in freq || !Passes(freq[order[0]], total) then []
    else [order[0]] + TopPrefix(order[1..], freq, total)
  }

  /**
   * Since the frequencies never increase along the order, the loop that stops at the first
   * entry below the cutoff keeps exactly the entries at or above it.
   */
  lemma {:induction false} TopPrefixMeaning(order: seq<int>, freq: map<int, int>, total: int, k: int)
    requires SortedByFrequency(order, freq)
    ensures k in TopPrefix(order, freq, total) <==> k in order && Passes(freq[k], total)
  {
    if |order| > 0 {
      assert SortedByFrequency(order[1..], freq) by {
        assert forall i :: 0 <= i < |order| - 1 ==> order[1..][i] == order[i + 1];
      }
      TopPrefixMeaning(order[1..], freq, total, k);
      if !Passes(freq[order[0]], total) && k in order {
        var p :| 0 <= p < |order| && order[p] == k;
        assert p == 0 || freq[order[0]] >= freq[order[p]];
      }
    }
  }

  /** Below the kept length, an entry is kept exactly when it passes the cutoff. */
  lemma {:induction false} TopPrefixIndex(order: seq<int>, freq: map<int, int>, total: int, i: nat)
    requires i < |order| && order[i] in freq
    requires i <= |TopPrefix(order, freq, total)|
    ensures i < |TopPrefix(order, freq, total)| <==> Passes(freq[order[i]], total)
  {
    if i > 0 {
      TopPrefixIndex(order[1..], freq, total, i - 1);
    }
  }

  /** The loop over the sorted entries that breaks at the first one below the cutoff. */
  method TakeTop(order: seq<int>, freq: map<int, int>, total: int) returns (kept: seq<int>)
    requires forall i :: 0 <= i < |order| ==> order[i] in freq
    ensures kept == TopPrefix(order, freq, total)
  {
    ghost var top := TopPrefix(order, freq, total);
    kept := [];
    var i := 0;
    while i < |order|
      invariant 0 <= i <= |top| && kept == top[..i]
    {
      TopPrefixIndex(order, freq, total, i);
      if !Passes(freq[order[i]], total) {
        break;
      }
      assert top[..i + 1] == top[..i] + [order[i]];
      kept := kept + [order[i]];
      i := i + 1;
    }
    assert top[..i] == top;
  }

  // ---------------------------------------------------------------------------
  // TreeSet<Integer>: distinct values in ascending order.

  predicate StrictlyAscending(s: seq<int>)
  {
    forall i, j :: 0 <= i < j < |s| ==> s[i] < s[j]
  }

  /** TreeSet.add: v goes to its place in the order unless it is there already. */
  function Insert(s: seq<int>, v: int): (r: seq<int>)
    requires StrictlyAscending(s)
    ensures StrictlyAscending(r)
    ensures forall x :: x in r <==> x in s || x == v
  {
    if |s| == 0 then [v]
    else if v < s[0] then [v] + s
    else if v == s[0] then s
    else
      var rest := Insert(s[1..], v);
      ConsAscending(s[0], rest);
      [s[0]] + rest
  }

  /** A value below every element of an ascending list can go in front of it. */
  lemma ConsAscending(x: int, s: seq<int>)
    requires StrictlyAscending(s) && forall y :: y in s ==> x < y
    ensures StrictlyAscending([x] + s)
  {
    var r := [x] + s;
    forall i, j | 0 <= i < j < |r|
      ensures r[i] < r[j]
    {
      assert r[j] == s[j - 1] && s[j - 1] in s;
      if i > 0 {
        assert r[i] == s[i - 1];
      }
    }
  }

  /** The TreeSet after adding the values one by one: every value once, in ascending order. */
  function TreeSetOf(values: seq<int>): (r: seq<int>)
    ensures StrictlyAscending(r)
    ensures forall x :: x in r <==> x in values
  {
    if |values| == 0 then []
    else
      var init := values[..|values| - 1];
      assert values == init + [values[|values| - 1]];
      Insert(TreeSetOf(init), values[|values| - 1])
  }

  /** The loop that adds every value to a fresh TreeSet. */
  method SortedDistinct(values: seq<int>) returns (r: seq<int>)
    ensures r == TreeSetOf(values)
  {
    r := [];
    for i := 0 to |values|
      invariant r == TreeSetOf(values[..i])
    {
      assert values[..i + 1][..i] == values[..i];
      r := Insert(r, values[i]);
    }
    assert values[..|values|] == values;
  }

  /** Two ascending lists of the same ids are the same list, so the TreeSet's order is determined by its elements. */
  lemma {:induction false} AscendingUnique(a: seq<int>, b: seq<int>)
    requires StrictlyAscending(a) && StrictlyAscending(b)
    requires forall x :: x in a <==> x in b
    ensures a == b
  {
    assert |a| > 0 ==> a[0] in a;
    assert |b| > 0 ==> b[0] in b;
    if |a| > 0 && |b| > 0 {
      assert a[0] == b[0] by {
        assert b[0] in a && a[0] in b;
      }
      forall x
        ensures x in a[1..] <==> x in b[1..]
      {
        if x in a[1..] {
          assert x in b && x != b[0];
        }
        if x in b[1..] {
          assert x in a && x != a[0];
        }
      }
      AscendingUnique(a[1..], b[1..]);
      assert a == [a[0]] + a[1..] && b == [b[0]] + b[1..];
    }
  }

  /** An ascending list holds each id once. */
  lemma AscendingDistinct(s: seq<int>)
    requires StrictlyAscending(s)
    ensures forall i, j :: 0 <= i < j < |s| ==> s[i] != s[j]
  {
  }
}
