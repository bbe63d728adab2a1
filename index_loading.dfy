/**
 * The shared shape of the index files' load loops: each line is parsed on its own and either
 * skipped or put into the index, so a later line for the same key replaces an earlier one,
 * and the first line that throws ends the load with its exception.
 */
module IndexLoading {
  import opened Wrappers

  /** The index after the first n lines; parse gives None for a skipped line. */
  function LoadUpTo<K(==), V>(parse: string -> Result<Option<(K, V)>>, lines: seq<string>, n: nat): Result<map<K, V>>
    requires n <= |lines|
  {
    if n == 0 then Ok(map[])
    else
      var index :- LoadUpTo(parse, lines, n - 1);
      var entry :- parse(lines[n - 1]);
      if entry.None? then Ok(index) else Ok(index[entry.value.0 := entry.value.1])
  }

  /** Line q is kept for key k. */
  predicate KeptAt<K(==), V>(parse: string -> Result<Option<(K, V)>>, lines: seq<string>, q: nat, k: K)
    requires q < |lines|
  {
    parse(lines[q]).Ok? && parse(lines[q]).value.Some? && parse(lines[q]).value.value.0 == k
  }

  /** A load succeeds exactly when no line throws. */
  lemma {:induction false} LoadUpToOk<K, V>(parse: string -> Result<Option<(K, V)>>, lines: seq<string>, n: nat)
    requires n <= |lines|
    ensures LoadUpTo(parse, lines, n).Ok? <==> forall q :: 0 <= q < n ==> parse(lines[q]).Ok?
  {
    if n > 0 {
      LoadUpToOk(parse, lines, n - 1);
    }
  }

  /** A load that succeeds holds exactly the keys of the kept lines. */
  lemma {:induction false} LoadUpToKeys<K, V>(parse: string -> Result<Option<(K, V)>>, lines: seq<string>, n: nat, k: K)
    requires n <= |lines| && LoadUpTo(parse, lines, n).Ok?
    ensures k in LoadUpTo(parse, lines, n).value <==> exists q :: 0 <= q < n && KeptAt(parse, lines, q, k)
  {
    if n > 0 {
      LoadUpToKeys(parse, lines, n - 1, k);
      if KeptAt(parse, lines, n - 1, k) {
        assert k in LoadUpTo(parse, lines, n).value;
      } else {
        assert (exists q :: 0 <= q < n && KeptAt(parse, lines, q, k)) <==>
          (exists q :: 0 <= q < n - 1 && KeptAt(parse, lines, q, k));
      }
    }
  }

  /** Each key holds the value of the last kept line for it: a later line overwrites an earlier one. */
  lemma {:induction false} LoadUpToLastWins<K, V>(parse: string -> Result<Option<(K, V)>>, lines: seq<string>, n: nat, q: nat, k: K)
    requires q < n <= |lines| && LoadUpTo(parse, lines, n).Ok?
    requires KeptAt(parse, lines, q, k)
    requires forall p :: q < p < n ==> !KeptAt(parse, lines, p, k)
    ensures k in LoadUpTo(parse, lines, n).value
    ensures LoadUpTo(parse, lines, n).value[k] == parse(lines[q]).value.value.1
  {
    if q < n - 1 {
      LoadUpToLastWins(parse, lines, n - 1, q, k);
      assert !KeptAt(parse, lines, n - 1, k);
    }
  }

  lemma {:induction false} LoadUpToFails<K, V>(parse: string -> Result<Option<(K, V)>>, lines: seq<string>, k: nat, n: nat)
    requires k <= n <= |lines| && LoadUpTo(parse, lines, k).Err?
    ensures LoadUpTo(parse, lines, n) == LoadUpTo(parse, lines, k)
    decreases n - k
  {
    if k < n {
      LoadUpToFails(parse, lines, k, n - 1);
    }
  }

  /** Every stored value came from a kept line, so a property of all kept lines' values holds of the whole index. */
  lemma {:induction false} LoadUpToValues<K, V>(parse: string -> Result<Option<(K, V)>>, lines: seq<string>, n: nat, P: V -> bool)
    requires n <= |lines|
    requires forall q :: 0 <= q < n && parse(lines[q]).Ok? && parse(lines[q]).value.Some? ==> P(parse(lines[q]).value.value.1)
    ensures LoadUpTo(parse, lines, n).Ok? ==> forall k :: k in LoadUpTo(parse, lines, n).value ==> P(LoadUpTo(parse, lines, n).value[k])
  {
    if n > 0 {
      LoadUpToValues(parse, lines, n - 1, P);
    }
  }

  /** The read loop of load, over the file's lines. */
  method Load<K(==), V>(parse: string -> Result<Option<(K, V)>>, lines: seq<string>) returns (r: Result<map<K, V>>)
    ensures r == LoadUpTo(parse, lines, |lines|)
  {
    var index: map<K, V> := map[];
    var n := 0;
    while n < |lines|
      invariant 0 <= n <= |lines|
      invariant LoadUpTo(parse, lines, n) == Ok(index)
    {
      var entry := parse(lines[n]);
      if entry.Err? {
        LoadUpToFails(parse, lines, n + 1, |lines|);
        return Err(entry.error);
      }
      if entry.value.Some? {
        index := index[entry.value.value.0 := entry.value.value.1];
      }
      n := n + 1;
    }
    r := Ok(index);
  }
}
