/**
 * The messages of one sweep of loopy belief propagation, and the memoised sum of the messages
 * each (mention, candidate) receives from the other mentions. Mentions are identified by what
 * Mention.equals compares.
 */
module MessagesMaps {
  import opened Wrappers
  import opened Mentions

  /** The message that mention `from` sends to candidate `entity` of mention `to`. */
  datatype Message = Message(from: MentionKey, to: MentionKey, entity: int)

  /** A candidate entity of a mention. */
  datatype Candidate = Candidate(mention: MentionKey, entity: int)

  /**
   * The sum of the messages that the senders, in order and skipping the source itself, send
   * to (source, entity); a missing message is a null that the addition dereferences.
   */
  function NeighborSum(messages: map<Message, real>, source: MentionKey, entity: int, senders: seq<MentionKey>): Result<real>
  {
    if |senders| == 0 then Ok(0.0)
    else
      var from := senders[|senders| - 1];
      match NeighborSum(messages, source, entity, senders[..|senders| - 1])
      case Err(e) => Err(e)
      case Ok(sum) =>
        if from == source then Ok(sum)
        else if Message(from, source, entity) in messages then Ok(sum + messages[Message(from, source, entity)])
        else Err(NullPointer)
  }

  /** Every sender other than the source has a message for (source, entity). */
  predicate HasIncoming(messages: map<Message, real>, source: MentionKey, entity: int, senders: seq<MentionKey>)
  {
    forall k :: 0 <= k < |senders| && senders[k] != source ==> Message(senders[k], source, entity) in messages
  }

  /** The sum is defined exactly when no incoming message is missing, and fails with a null dereference otherwise. */
  lemma {:induction false} NeighborSumDefined(messages: map<Message, real>, source: MentionKey, entity: int, senders: seq<MentionKey>)
    ensures NeighborSum(messages, source, entity, senders).Ok? <==> HasIncoming(messages, source, entity, senders)
    ensures NeighborSum(messages, source, entity, senders).Err? ==> NeighborSum(messages, source, entity, senders).error == NullPointer
  {
    if |senders| > 0 {
      var prefix := senders[..|senders| - 1];
      NeighborSumDefined(messages, source, entity, prefix);
      if HasIncoming(messages, source, entity, senders) {
        forall k | 0 <= k < |prefix| && prefix[k] != source
          ensures Message(prefix[k], source, entity) in messages
        {
          assert prefix[k] == senders[k];
        }
      } else if HasIncoming(messages, source, entity, prefix) {
        assert forall k :: 0 <= k < |prefix| ==> prefix[k] == senders[k];
      }
    }
  }

  lemma HasIncomingSplit(messages: map<Message, real>, source: MentionKey, entity: int, xs: seq<MentionKey>, ys: seq<MentionKey>)
    requires HasIncoming(messages, source, entity, xs + ys)
    ensures HasIncoming(messages, source, entity, xs) && HasIncoming(messages, source, entity, ys)
  {
    forall k | 0 <= k < |xs| && xs[k] != source
      ensures Message(xs[k], source, entity) in messages
    {
      assert xs[k] == (xs + ys)[k];
    }
    forall k | 0 <= k < |ys| && ys[k] != source
      ensures Message(ys[k], source, entity) in messages
    {
      assert ys[k] == (xs + ys)[|xs| + k];
    }
  }

  /** Summing over two runs of senders adds their sums. */
  lemma {:induction false} NeighborSumConcat(messages: map<Message, real>, source: MentionKey, entity: int, xs: seq<MentionKey>, ys: seq<MentionKey>)
    requires HasIncoming(messages, source, entity, xs + ys)
    ensures NeighborSum(messages, source, entity, xs).Ok? && NeighborSum(messages, source, entity, ys).Ok?
    ensures NeighborSum(messages, source, entity, xs + ys) ==
      Ok(NeighborSum(messages, source, entity, xs).value + NeighborSum(messages, source, entity, ys).value)
  {
    HasIncomingSplit(messages, source, entity, xs, ys);
    NeighborSumDefined(messages, source, entity, xs);
    NeighborSumDefined(messages, source, entity, ys);
    if |ys| == 0 {
      assert xs + ys == xs;
    } else {
      var ys' := ys[..|ys| - 1];
      assert (xs + ys)[..|xs + ys| - 1] == xs + ys';
      assert ys == ys' + [ys[|ys| - 1]];
      HasIncomingSplit(messages, source, entity, xs + ys', [ys[|ys| - 1]]);
      NeighborSumConcat(messages, source, entity, xs, ys');
    }
  }

  /**
   * Leaving one sender x out of the senders lowers the sum by exactly x's message: the sum of
   * all incoming messages minus one sender's is the sum of the others'.
   */
  lemma NeighborSumWithout(messages: map<Message, real>, source: MentionKey, entity: int, xs: seq<MentionKey>, x: MentionKey, ys: seq<MentionKey>)
    requires x != source && HasIncoming(messages, source, entity, xs + [x] + ys)
    ensures Message(x, source, entity) in messages
    ensures NeighborSum(messages, source, entity, xs + [x] + ys).Ok? && NeighborSum(messages, source, entity, xs + ys).Ok?
    ensures NeighborSum(messages, source, entity, xs + [x] + ys).value - messages[Message(x, source, entity)] ==
      NeighborSum(messages, source, entity, xs + ys).value
  {
    assert (xs + [x] + ys)[|xs|] == x;
    NeighborSumConcat(messages, source, entity, xs + [x], ys);
    HasIncomingSplit(messages, source, entity, xs + [x], ys);
    NeighborSumConcat(messages, source, entity, xs, [x]);
    HasIncomingSplit(messages, source, entity, xs, [x]);
    assert [x][..0] == [];
    assert NeighborSum(messages, source, entity, [x]) == Ok(messages[Message(x, source, entity)]);
    assert HasIncoming(messages, source, entity, xs + ys) by {
      forall k | 0 <= k < |xs + ys| && (xs + ys)[k] != source
        ensures Message((xs + ys)[k], source, entity) in messages
      {
        if k < |xs| {
          assert (xs + ys)[k] == (xs + [x] + ys)[k];
        } else {
          assert (xs + ys)[k] == (xs + [x] + ys)[k + 1];
        }
      }
    }
    NeighborSumConcat(messages, source, entity, xs, ys);
  }

  // ---------------------------------------------------------------------------
  // The cache of neighbour sums.

  /** The total a query for a candidate uses: the cached one if there is one, else the sum it computes. */
  function Total(messages: map<Message, real>, cache: map<Candidate, real>, c: Candidate, senders: seq<MentionKey>): Result<real>
  {
    if c in cache then Ok(cache[c]) else NeighborSum(messages, c.mention, c.entity, senders)
  }

  /** sumNeighborMessages' result: the total, minus the excluded sender's message when there is one. */
  function Query(messages: map<Message, real>, cache: map<Candidate, real>, source: MentionKey, entity: int,
                 exclude: Option<MentionKey>, senders: seq<MentionKey>): Result<real>
  {
    match Total(messages, cache, Candidate(source, entity), senders)
    case Err(e) => Err(e)
    case Ok(t) =>
      match exclude
      case None => Ok(t)
      case Some(x) =>
        if Message(x, source, entity) in messages then Ok(t - messages[Message(x, source, entity)])
        else Err(NullPointer)
  }

  /** The cache after a query: a total computed for the first time is kept; a failed sum is not. */
  function CacheAfter(messages: map<Message, real>, cache: map<Candidate, real>, source: MentionKey, entity: int,
                      senders: seq<MentionKey>): map<Candidate, real>
  {
    var c := Candidate(source, entity);
    if c in cache then cache
    else
      match NeighborSum(messages, source, entity, senders)
      case Ok(t) => cache[c := t]
      case Err(_) => cache
  }

  /** Every cached total is the sum over these senders of the current messages. */
  ghost predicate CacheSound(messages: map<Message, real>, cache: map<Candidate, real>, senders: seq<MentionKey>)
  {
    forall c :: c in cache ==> NeighborSum(messages, c.mention, c.entity, senders) == Ok(cache[c])
  }

  /** A query changes no total a later query would use: it only records one it computed. */
  lemma QueryKeepsTotals(messages: map<Message, real>, cache: map<Candidate, real>, source: MentionKey, entity: int,
                         senders: seq<MentionKey>, c: Candidate)
    ensures Total(messages, CacheAfter(messages, cache, source, entity, senders), c, senders) == Total(messages, cache, c, senders)
  {
  }

  /**
   * With a sound cache a query answers what it would answer with no cache at all, and the
   * cache stays sound.
   */
  lemma QuerySound(messages: map<Message, real>, cache: map<Candidate, real>, source: MentionKey, entity: int,
                   exclude: Option<MentionKey>, senders: seq<MentionKey>)
    requires CacheSound(messages, cache, senders)
    ensures CacheSound(messages, CacheAfter(messages, cache, source, entity, senders), senders)
    ensures Query(messages, cache, source, entity, exclude, senders) == Query(messages, map[], source, entity, exclude, senders)
  {
  }

  /**
   * A cached total is used whatever senders a later query names: the list is read only the
   * first time a candidate is queried.
   */
  lemma CachedIgnoresSenders(messages: map<Message, real>, cache: map<Candidate, real>, source: MentionKey, entity: int,
                             exclude: Option<MentionKey>, senders1: seq<MentionKey>, senders2: seq<MentionKey>)
    requires Candidate(source, entity) in cache
    ensures Query(messages, cache, source, entity, exclude, senders1) == Query(messages, cache, source, entity, exclude, senders2)
    ensures CacheAfter(messages, cache, source, entity, senders1) == cache
  {
  }

  /**
   * A query excluding one sender x, which occurs once among the senders, with a sound cache and
   * no incoming message missing, is the sum over the other senders.
   */
  lemma QueryExcluding(messages: map<Message, real>, cache: map<Candidate, real>, source: MentionKey, entity: int,
                       xs: seq<MentionKey>, x: MentionKey, ys: seq<MentionKey>)
    requires x != source && HasIncoming(messages, source, entity, xs + [x] + ys)
    requires CacheSound(messages, cache, xs + [x] + ys)
    ensures NeighborSum(messages, source, entity, xs + ys).Ok?
    ensures Query(messages, cache, source, entity, Some(x), xs + [x] + ys) == Ok(NeighborSum(messages, source, entity, xs + ys).value)
  {
    NeighborSumWithout(messages, source, entity, xs, x, ys);
  }

  /** A query fails only by dereferencing a missing message. */
  lemma QueryFailsOnNull(messages: map<Message, real>, cache: map<Candidate, real>, source: MentionKey, entity: int,
                         exclude: Option<MentionKey>, senders: seq<MentionKey>)
    ensures Query(messages, cache, source, entity, exclude, senders).Err? ==>
      Query(messages, cache, source, entity, exclude, senders).error == NullPointer
  {
    NeighborSumDefined(messages, source, entity, senders);
  }

  /** Two caches that lead every query to the same total. */
  ghost predicate SameTotals(messages: map<Message, real>, cache1: map<Candidate, real>, cache2: map<Candidate, real>, senders: seq<MentionKey>)
  {
    forall c :: Total(messages, cache1, c, senders) == Total(messages, cache2, c, senders)
  }

  /** After a query the cache leads every query to the total it led to before. */
  lemma QueryKeepsAllTotals(messages: map<Message, real>, cache0: map<Candidate, real>, cache: map<Candidate, real>,
                            source: MentionKey, entity: int, senders: seq<MentionKey>)
    requires SameTotals(messages, cache0, cache, senders)
    ensures SameTotals(messages, cache0, CacheAfter(messages, cache, source, entity, senders), senders)
  {
    forall c ensures Total(messages, cache0, c, senders) == Total(messages, CacheAfter(messages, cache, source, entity, senders), c, senders) {
      QueryKeepsTotals(messages, cache, source, entity, senders, c);
    }
  }

  /** Caches with the same totals answer every query alike, and a sound one keeps the other sound. */
  lemma SameTotalsQuery(messages: map<Message, real>, cache0: map<Candidate, real>, cache: map<Candidate, real>,
                        source: MentionKey, entity: int, exclude: Option<MentionKey>, senders: seq<MentionKey>)
    requires SameTotals(messages, cache0, cache, senders)
    ensures Query(messages, cache, source, entity, exclude, senders) == Query(messages, cache0, source, entity, exclude, senders)
    ensures CacheSound(messages, cache0, senders) ==> CacheSound(messages, cache, senders)
  {
    assert Total(messages, cache, Candidate(source, entity), senders) == Total(messages, cache0, Candidate(source, entity), senders);
    if CacheSound(messages, cache0, senders) {
      forall c | c in cache ensures NeighborSum(messages, c.mention, c.entity, senders) == Ok(cache[c]) {
        assert Total(messages, cache, c, senders) == Total(messages, cache0, c, senders);
      }
    }
  }

  class MessagesMap {
    var messages: map<Message, real>
    var cache: map<Candidate, real>

    constructor ()
      ensures messages == map[] && cache == map[]
    {
      messages := map[];
      cache := map[];
    }

    /** HashMap.put: the cache is left as it is, even where a cached total goes stale. */
    method Put(m: Message, v: real)
      modifies this
      ensures messages == old(messages)[m := v] && cache == old(cache)
    {
      messages := messages[m := v];
    }

    /** sumNeighborMessages: the cached or newly computed total, less the excluded sender's message. */
    method SumNeighborMessages(source: MentionKey, entity: int, exclude: Option<MentionKey>, senders: seq<MentionKey>)
      returns (r: Result<real>)
      modifies this
      ensures messages == old(messages)
      ensures cache == CacheAfter(old(messages), old(cache), source, entity, senders)
      ensures r == Query(old(messages), old(cache), source, entity, exclude, senders)
    {
      var c := Candidate(source, entity);
      if c !in cache {
        var total := SumIncoming(messages, source, entity, senders);
        if total.Err? {
          return Err(total.error);
        }
        cache := cache[c := total.value];
      }
      var result := cache[c];
      if exclude.Some? {
        var m := Message(exclude.value, source, entity);
        if m !in messages {
          return Err(NullPointer);
        }
        result := result - messages[m];
      }
      return Ok(result);
    }

    /** The loop over the senders that computes a total on a cache miss. */
    static method SumIncoming(messages: map<Message, real>, source: MentionKey, entity: int, senders: seq<MentionKey>)
      returns (r: Result<real>)
      ensures r == NeighborSum(messages, source, entity, senders)
    {
      var sum := 0.0;
      for k := 0 to |senders|
        invariant NeighborSum(messages, source, entity, senders[..k]) == Ok(sum)
      {
        assert senders[..k + 1][..k] == senders[..k];
        var from := senders[k];
        if from != source {
          var m := Message(from, source, entity);
          if m !in messages {
            NeighborSumFails(messages, source, entity, senders, k + 1);
            return Err(NullPointer);
          }
          sum := sum + messages[m];
        }
      }
      assert senders[..|senders|] == senders;
      return Ok(sum);
    }
  }

  /** Once a prefix of the senders fails, the whole sum fails. */
  lemma {:induction false} NeighborSumFails(messages: map<Message, real>, source: MentionKey, entity: int, senders: seq<MentionKey>, n: nat)
    requires n <= |senders| && NeighborSum(messages, source, entity, senders[..n]) == Err(NullPointer)
    ensures NeighborSum(messages, source, entity, senders) == Err(NullPointer)
    decreases |senders| - n
  {
    if n < |senders| {
      assert senders[..n + 1][..n] == senders[..n];
      NeighborSumFails(messages, source, entity, senders, n + 1);
    } else {
      assert senders[..n] == senders;
    }
  }
}
