/**
 * The basic scorer of loopy belief propagation. A message from one mention's candidate to
 * another's scores the sender's local compatibility, the pair's relatedness and the messages
 * the sender receives from everyone but the receiver; a candidate's final score is its
 * compatibility plus all the messages it receives. Compatibilities are divided by the number
 * of mentions l exactly (the rounding at the compatibility's scale is not modelled).
 */
module ScorerBasics {
  import opened Wrappers
  import opened JavaLang
  import opened OrderedMaps
  import opened Mentions
  import opened ArgMaxes
  import opened MessagesMaps
  import opened RelatednessMaps

  /** The static field BETA, which every ScorerBasic reads: one object all scorers share. */
  class Statics {
    var beta: real

    constructor ()
      ensures beta == 1.0
    {
      beta := 1.0;
    }
  }

  /** What a scorer reads when it scores: its mentions, the shared BETA, and its relatedness map. */
  datatype Scoring = Scoring(mentions: seq<MentionInfo>, beta: real, relatedness: RelatednessMap)

  /** The messages a scorer reads: a messages map's entries and neighbour-sum cache, or null. */
  type MessagesState = Option<(map<Message, real>, map<Candidate, real>)>

  /** MessagesMap.sumNeighborMessages on a state; on null it is a null dereference. */
  function Neighbors(state: MessagesState, source: MentionKey, entity: int, exclude: Option<MentionKey>,
                     senders: seq<MentionKey>): Result<real>
  {
    match state
    case None => Err(NullPointer)
    case Some(mc) => Query(mc.0, mc.1, source, entity, exclude, senders)
  }

  function Value(r: Result<real>): real
  {
    if r.Ok? then r.value else 0.0
  }

  /**
   * computeMessageScore: compatibility(from, entityFrom)/l + 2·BETA·relatedness/(l(l−1)) plus
   * the messages `from` receives for entityFrom from everyone but `to`. The product l(l−1) is
   * an int; a zero divisor makes the double infinite or NaN, which BigDecimal rejects.
   */
  function MessageScoreOf(s: Scoring, state: MessagesState, from: MentionInfo, to: MentionInfo,
                          entityFrom: int, entityTo: int): Result<real>
  {
    var l := |s.mentions|;
    var pairs := Wrap32(l * (l - 1));
    if pairs == 0 then Err(NumberFormat)
    else if entityFrom !in from.candidates.values then Err(NullPointer)
    else
      match Neighbors(state, KeyOf(from), entityFrom, Some(KeyOf(to)), MentionKeys(s.mentions))
      case Err(e) => Err(e)
      case Ok(n) =>
        Ok(from.candidates.values[entityFrom] / l as real +
           2.0 * s.beta * s.relatedness.Get(entityFrom, entityTo) / pairs as real + n)
  }

  /** computeFinalScore: the neighbour messages plus the local compatibility over l. */
  function FinalScore(l: int, neighbors: real, compatibility: real): (r: Result<real>)
    ensures r.Ok? <==> l != 0
    ensures r.Ok? ==> r.value - neighbors == compatibility / l as real
  {
    if l == 0 then Err(Arithmetic) else Ok(neighbors + compatibility / l as real)
  }

  /** The final score of candidate e of mention m: every message it receives plus its compatibility over l. */
  function FinalOf(s: Scoring, state: MessagesState, m: MentionInfo, e: int): Result<real>
  {
    match Neighbors(state, KeyOf(m), e, None, MentionKeys(s.mentions))
    case Err(x) => Err(x)
    case Ok(n) => FinalScore(|s.mentions|, n, m.candidates.GetOrDefault(e, 0.0))
  }

  function ScoreFn(s: Scoring, state: MessagesState, m: MentionInfo): int -> real
  {
    e => Value(FinalOf(s, state, m, e))
  }

  /** Every candidate of m has a final score. */
  predicate AllFinal(s: Scoring, state: MessagesState, m: MentionInfo)
  {
    forall k :: 0 <= k < |m.candidates.keys| ==> FinalOf(s, state, m, m.candidates.keys[k]).Ok?
  }

  /**
   * computeSolution's loop over the first k candidates of m: the best (candidate, score) so
   * far, the running best replaced only by a strictly greater score, or the first failure.
   */
  function ChooseUpTo(s: Scoring, state: MessagesState, m: MentionInfo, k: nat): Result<(int, real)>
    requires k <= |m.candidates.keys|
  {
    if k == 0 then Ok((-1, 0.0))
    else
      match ChooseUpTo(s, state, m, k - 1)
      case Err(x) => Err(x)
      case Ok(best) =>
        var e := m.candidates.keys[k - 1];
        match FinalOf(s, state, m, e)
        case Err(x) => Err(x)
        case Ok(score) => Ok(Step(best, e, score, true))
  }

  /** The entity computeSolution picks for m. */
  function ChoiceOf(s: Scoring, state: MessagesState, m: MentionInfo): Result<int>
  {
    match ChooseUpTo(s, state, m, |m.candidates.keys|)
    case Err(x) => Err(x)
    case Ok(best) => Ok(best.0)
  }

  /** computeSolution's loop over the first n mentions: each mention's choice put under its key. */
  function SolutionUpTo(s: Scoring, state: MessagesState, n: nat): Result<OrderedMap<MentionKey, int>>
    requires n <= |s.mentions|
  {
    if n == 0 then Ok(Empty())
    else
      match SolutionUpTo(s, state, n - 1)
      case Err(x) => Err(x)
      case Ok(acc) =>
        match ChoiceOf(s, state, s.mentions[n - 1])
        case Err(x) => Err(x)
        case Ok(c) => Ok(acc.Put(KeyOf(s.mentions[n - 1]), c))
  }

  function SolutionOf(s: Scoring, state: MessagesState): Result<OrderedMap<MentionKey, int>>
  {
    SolutionUpTo(s, state, |s.mentions|)
  }

  /** The choices, with -1 standing in for a failed one. */
  function ChoiceValues(s: Scoring, state: MessagesState): (r: seq<int>)
    ensures |r| == |s.mentions|
  {
    seq(|s.mentions|, i requires 0 <= i < |s.mentions| =>
      var c := ChoiceOf(s, state, s.mentions[i]); if c.Ok? then c.value else -1)
  }

  /** computeScores' loop over the first k candidates of m, putting each one's final score into acc. */
  function ScoreCandidates(s: Scoring, state: MessagesState, m: MentionInfo, k: nat, acc: OrderedMap<Candidate, real>)
    : Result<OrderedMap<Candidate, real>>
    requires k <= |m.candidates.keys|
  {
    if k == 0 then Ok(acc)
    else
      match ScoreCandidates(s, state, m, k - 1, acc)
      case Err(x) => Err(x)
      case Ok(prev) =>
        var e := m.candidates.keys[k - 1];
        match FinalOf(s, state, m, e)
        case Err(x) => Err(x)
        case Ok(score) => Ok(prev.Put(Candidate(KeyOf(m), e), score))
  }

  /** computeScores' loop over the first n mentions. */
  function ScoresUpTo(s: Scoring, state: MessagesState, n: nat): Result<OrderedMap<Candidate, real>>
    requires n <= |s.mentions|
  {
    if n == 0 then Ok(Empty())
    else
      match ScoresUpTo(s, state, n - 1)
      case Err(x) => Err(x)
      case Ok(acc) => ScoreCandidates(s, state, s.mentions[n - 1], |s.mentions[n - 1].candidates.keys|, acc)
  }

  function ScoresOf(s: Scoring, state: MessagesState): Result<OrderedMap<Candidate, real>>
  {
    ScoresUpTo(s, state, |s.mentions|)
  }

  // ---------------------------------------------------------------------------
  // Properties of a message score and a final score.

  /**
   * With every incoming message present, a sound cache and a pair count l(l-1) that fits in an
   * int, a message score is defined for any sender candidate and any receiver other than the
   * sender, and its neighbour part is the sum of the messages the sender's candidate receives
   * from every mention other than itself and the receiver.
   */
  lemma MessageScoreExcludesReceiver(s: Scoring, messages: map<Message, real>, cache: map<Candidate, real>,
                                     xs: seq<MentionInfo>, from: MentionInfo, to: MentionInfo, ys: seq<MentionInfo>,
                                     entityFrom: int, entityTo: int)
    requires s.mentions == xs + [to] + ys && KeyOf(to) != KeyOf(from)
    requires 2 <= |s.mentions| && |s.mentions| * (|s.mentions| - 1) <= INT_MAX
    requires entityFrom in from.candidates.values
    requires HasIncoming(messages, KeyOf(from), entityFrom, MentionKeys(s.mentions))
    requires CacheSound(messages, cache, MentionKeys(s.mentions))
    ensures NeighborSum(messages, KeyOf(from), entityFrom, MentionKeys(xs) + MentionKeys(ys)).Ok?
    ensures var l := |s.mentions|;
      MessageScoreOf(s, Some((messages, cache)), from, to, entityFrom, entityTo) ==
      Ok(from.candidates.values[entityFrom] / l as real +
         2.0 * s.beta * s.relatedness.Get(entityFrom, entityTo) / (l * (l - 1)) as real +
         NeighborSum(messages, KeyOf(from), entityFrom, MentionKeys(xs) + MentionKeys(ys)).value)
  {
    PairsPositive(|s.mentions|);
    NeighborsExcludingReceiver(s, messages, cache, xs, from, to, ys, entityFrom);
  }

  lemma PairsPositive(l: int)
    requires l >= 2
    ensures l * (l - 1) >= l
  {
  }

  /** The neighbour part of a message score: the sum over every mention but the sender and the receiver. */
  lemma NeighborsExcludingReceiver(s: Scoring, messages: map<Message, real>, cache: map<Candidate, real>,
                                   xs: seq<MentionInfo>, from: MentionInfo, to: MentionInfo, ys: seq<MentionInfo>,
                                   entityFrom: int)
    requires s.mentions == xs + [to] + ys && KeyOf(to) != KeyOf(from)
    requires HasIncoming(messages, KeyOf(from), entityFrom, MentionKeys(s.mentions))
    requires CacheSound(messages, cache, MentionKeys(s.mentions))
    ensures NeighborSum(messages, KeyOf(from), entityFrom, MentionKeys(xs) + MentionKeys(ys)).Ok?
    ensures Neighbors(Some((messages, cache)), KeyOf(from), entityFrom, Some(KeyOf(to)), MentionKeys(s.mentions)) ==
      Ok(NeighborSum(messages, KeyOf(from), entityFrom, MentionKeys(xs) + MentionKeys(ys)).value)
  {
    assert MentionKeys(s.mentions) == MentionKeys(xs) + [KeyOf(to)] + MentionKeys(ys);
    QueryExcluding(messages, cache, KeyOf(from), entityFrom, MentionKeys(xs), KeyOf(to), MentionKeys(ys));
  }

  /** With fewer than two mentions every message score fails: l(l-1) is zero. */
  lemma MessageScoreNeedsTwo(s: Scoring, state: MessagesState, from: MentionInfo, to: MentionInfo, entityFrom: int, entityTo: int)
    requires |s.mentions| < 2
    ensures MessageScoreOf(s, state, from, to, entityFrom, entityTo) == Err(NumberFormat)
  {
    var l := |s.mentions|;
    assert l * (l - 1) == 0;
  }

  /**
   * With a sound cache a final score is defined exactly when every incoming message is
   * present, and is then the sum of the messages plus the compatibility over l.
   */
  lemma FinalOfMeaning(s: Scoring, messages: map<Message, real>, cache: map<Candidate, real>, m: MentionInfo, e: int)
    requires |s.mentions| > 0 && CacheSound(messages, cache, MentionKeys(s.mentions))
    ensures FinalOf(s, Some((messages, cache)), m, e).Ok? <==> HasIncoming(messages, KeyOf(m), e, MentionKeys(s.mentions))
    ensures FinalOf(s, Some((messages, cache)), m, e).Ok? ==>
      FinalOf(s, Some((messages, cache)), m, e).value ==
      NeighborSum(messages, KeyOf(m), e, MentionKeys(s.mentions)).value + m.candidates.GetOrDefault(e, 0.0) / |s.mentions| as real
  {
    NeighborSumDefined(messages, KeyOf(m), e, MentionKeys(s.mentions));
  }

  /** computeScores' candidate loop keeps its map well formed. */
  lemma {:induction false} ScoreCandidatesValid(s: Scoring, state: MessagesState, m: MentionInfo, k: nat,
                                                 acc: OrderedMap<Candidate, real>)
    requires k <= |m.candidates.keys| && acc.Valid() && ScoreCandidates(s, state, m, k, acc).Ok?
    ensures ScoreCandidates(s, state, m, k, acc).value.Valid()
  {
    if k > 0 {
      ScoreCandidatesValid(s, state, m, k - 1, acc);
      var prev := ScoreCandidates(s, state, m, k - 1, acc).value;
      var e := m.candidates.keys[k - 1];
      PutValid(prev, Candidate(KeyOf(m), e), FinalOf(s, state, m, e).value);
    }
  }

  /** computeScores builds a well-formed map. */
  lemma {:induction false} ScoresUpToValid(s: Scoring, state: MessagesState, n: nat)
    requires n <= |s.mentions| && ScoresUpTo(s, state, n).Ok?
    ensures ScoresUpTo(s, state, n).value.Valid()
  {
    if n > 0 {
      ScoresUpToValid(s, state, n - 1);
      var m := s.mentions[n - 1];
      ScoreCandidatesValid(s, state, m, |m.candidates.keys|, ScoresUpTo(s, state, n - 1).value);
    }
  }

  // ---------------------------------------------------------------------------
  // Properties of computeSolution.

  /** The choice loop fails exactly when a candidate's final score does, and otherwise is the running best of Best. */
  lemma {:induction false} ChooseUpToBest(s: Scoring, state: MessagesState, m: MentionInfo, k: nat)
    requires k <= |m.candidates.keys|
    ensures ChooseUpTo(s, state, m, k).Ok? <==> forall j :: 0 <= j < k ==> FinalOf(s, state, m, m.candidates.keys[j]).Ok?
    ensures ChooseUpTo(s, state, m, k).Ok? ==>
      ChooseUpTo(s, state, m, k).value == Best(m.candidates.keys[..k], ScoreFn(s, state, m), (-1, 0.0), true)
  {
    if k > 0 {
      ChooseUpToBest(s, state, m, k - 1);
      var keys := m.candidates.keys;
      assert keys[..k][..k - 1] == keys[..k - 1];
    }
  }

  /**
   * A mention's choice is defined exactly when every candidate's final score is, and is then
   * the first of its candidates with the greatest final score, or -1 when it has none
   * (candidate -1 aside).
   */
  lemma ChoiceIsFirstMaximum(s: Scoring, state: MessagesState, m: MentionInfo)
    requires -1 !in m.candidates.keys
    ensures ChoiceOf(s, state, m).Ok? <==> AllFinal(s, state, m)
    ensures ChoiceOf(s, state, m).Ok? && |m.candidates.keys| == 0 ==> ChoiceOf(s, state, m).value == -1
    ensures ChoiceOf(s, state, m).Ok? && |m.candidates.keys| > 0 ==>
      exists p :: FirstMaxAt(m.candidates.keys, ScoreFn(s, state, m), p) && ChoiceOf(s, state, m).value == m.candidates.keys[p]
  {
    var keys := m.candidates.keys;
    ChooseUpToBest(s, state, m, |keys|);
    assert keys[..|keys|] == keys;
    BestFirstWins(keys, ScoreFn(s, state, m), (-1, 0.0));
  }

  /** The solution loop fails exactly when a choice does. */
  lemma {:induction false} SolutionUpToDefined(s: Scoring, state: MessagesState, n: nat)
    requires n <= |s.mentions|
    ensures SolutionUpTo(s, state, n).Ok? <==> forall i :: 0 <= i < n ==> ChoiceOf(s, state, s.mentions[i]).Ok?
  {
    if n > 0 {
      SolutionUpToDefined(s, state, n - 1);
      var prev := SolutionUpTo(s, state, n - 1);
      var c := ChoiceOf(s, state, s.mentions[n - 1]);
      if prev.Err? {
        assert SolutionUpTo(s, state, n) == Err(prev.error);
      } else if c.Err? {
        assert SolutionUpTo(s, state, n) == Err(c.error);
      } else {
        assert SolutionUpTo(s, state, n) == Ok(prev.value.Put(KeyOf(s.mentions[n - 1]), c.value));
      }
    }
  }

  /** A solution puts every choice under its mention's key, in mention order. */
  lemma {:induction false} SolutionUpToPuts(s: Scoring, state: MessagesState, n: nat)
    requires n <= |s.mentions| && SolutionUpTo(s, state, n).Ok?
    ensures SolutionUpTo(s, state, n).value == PutAll(MentionKeys(s.mentions), ChoiceValues(s, state), n)
  {
    if n > 0 {
      var m := s.mentions[n - 1];
      var acc := SolutionUpTo(s, state, n - 1).value;
      SolutionUpToPuts(s, state, n - 1);
      assert ChoiceValues(s, state)[n - 1] == ChoiceOf(s, state, m).value;
      assert MentionKeys(s.mentions)[n - 1] == KeyOf(m);
    }
  }

  /**
   * The solution has one entry per mention key and nothing else; a mention whose key no later
   * mention shares is mapped to its own choice.
   */
  lemma SolutionEntries(s: Scoring, state: MessagesState, i: nat, k: MentionKey)
    requires SolutionOf(s, state).Ok? && i < |s.mentions|
    ensures k in SolutionOf(s, state).value.values <==> k in MentionKeys(s.mentions)
    ensures (forall j :: i < j < |s.mentions| ==> KeyOf(s.mentions[j]) != KeyOf(s.mentions[i])) ==>
      KeyOf(s.mentions[i]) in SolutionOf(s, state).value.values &&
      ChoiceOf(s, state, s.mentions[i]).Ok? &&
      SolutionOf(s, state).value.values[KeyOf(s.mentions[i])] == ChoiceOf(s, state, s.mentions[i]).value
  {
    var ms := s.mentions;
    var keys := MentionKeys(ms);
    SolutionUpToDefined(s, state, |ms|);
    SolutionUpToPuts(s, state, |ms|);
    PutAllKeys(keys, ChoiceValues(s, state), |ms|);
    assert keys[..|ms|] == keys;
    if forall j :: i < j < |ms| ==> KeyOf(ms[j]) != KeyOf(ms[i]) {
      PutAllLastWins(keys, ChoiceValues(s, state), |ms|, i);
    }
  }

  /**
   * With no messages map, computeSolution fails exactly when some mention has a candidate,
   * and otherwise maps every mention to -1.
   */
  lemma SolutionWithoutMessages(s: Scoring)
    ensures SolutionOf(s, None).Err? <==> exists i :: 0 <= i < |s.mentions| && |s.mentions[i].candidates.keys| > 0
    ensures SolutionOf(s, None).Ok? ==> forall k :: k in SolutionOf(s, None).value.values ==> SolutionOf(s, None).value.values[k] == -1
  {
    var ms := s.mentions;
    SolutionUpToDefined(s, None, |ms|);
    forall i | 0 <= i < |ms|
      ensures ChoiceOf(s, None, ms[i]).Ok? <==> |ms[i].candidates.keys| == 0
      ensures ChoiceOf(s, None, ms[i]).Ok? ==> ChoiceOf(s, None, ms[i]).value == -1
    {
      var keys := ms[i].candidates.keys;
      ChooseUpToBest(s, None, ms[i], |keys|);
      if |keys| > 0 {
        assert !FinalOf(s, None, ms[i], keys[0]).Ok?;
      }
    }
    if SolutionOf(s, None).Ok? {
      SolutionUpToPuts(s, None, |ms|);
      forall k | k in SolutionOf(s, None).value.values ensures SolutionOf(s, None).value.values[k] == -1 {
        PutAllFrom(MentionKeys(ms), ChoiceValues(s, None), |ms|, k);
      }
    }
  }

  // ---------------------------------------------------------------------------
  // Properties of computeScores.

  /** The candidate loop fails exactly when a candidate's final score does. */
  lemma {:induction false} ScoreCandidatesDefined(s: Scoring, state: MessagesState, m: MentionInfo, k: nat,
                                                   acc: OrderedMap<Candidate, real>)
    requires k <= |m.candidates.keys|
    ensures ScoreCandidates(s, state, m, k, acc).Ok? <==>
      forall j :: 0 <= j < k ==> FinalOf(s, state, m, m.candidates.keys[j]).Ok?
  {
    if k > 0 {
      ScoreCandidatesDefined(s, state, m, k - 1, acc);
    }
  }

  /** The candidate loop puts each visited candidate's final score under it. */
  lemma {:induction false} ScoreCandidatesHas(s: Scoring, state: MessagesState, m: MentionInfo, k: nat,
                                               acc: OrderedMap<Candidate, real>, j: nat)
    requires j < k <= |m.candidates.keys| && m.candidates.Valid()
    requires ScoreCandidates(s, state, m, k, acc).Ok?
    ensures var c := Candidate(KeyOf(m), m.candidates.keys[j]);
      c in ScoreCandidates(s, state, m, k, acc).value.values && FinalOf(s, state, m, m.candidates.keys[j]).Ok? &&
      ScoreCandidates(s, state, m, k, acc).value.values[c] == FinalOf(s, state, m, m.candidates.keys[j]).value
  {
    if j < k - 1 {
      ScoreCandidatesHas(s, state, m, k - 1, acc, j);
      assert m.candidates.keys[j] != m.candidates.keys[k - 1];
    }
  }

  /** An entry after the candidate loop was in acc, unchanged, or is a visited candidate's final score. */
  lemma {:induction false} ScoreCandidatesFrom(s: Scoring, state: MessagesState, m: MentionInfo, k: nat,
                                                acc: OrderedMap<Candidate, real>, c: Candidate)
    requires k <= |m.candidates.keys|
    requires ScoreCandidates(s, state, m, k, acc).Ok? && c in ScoreCandidates(s, state, m, k, acc).value.values
    ensures var r := ScoreCandidates(s, state, m, k, acc).value;
      (c in acc.values && r.values[c] == acc.values[c]) ||
      (exists j :: (0 <= j < k && c == Candidate(KeyOf(m), m.candidates.keys[j]) &&
        FinalOf(s, state, m, m.candidates.keys[j]).Ok? && r.values[c] == FinalOf(s, state, m, m.candidates.keys[j]).value))
  {
    if k > 0 && c != Candidate(KeyOf(m), m.candidates.keys[k - 1]) {
      ScoreCandidatesFrom(s, state, m, k - 1, acc, c);
    }
  }

  /** The candidate loop keeps every entry, and leaves those of another mention as they were. */
  lemma {:induction false} ScoreCandidatesKeeps(s: Scoring, state: MessagesState, m: MentionInfo, k: nat,
                                                 acc: OrderedMap<Candidate, real>, c: Candidate)
    requires k <= |m.candidates.keys| && ScoreCandidates(s, state, m, k, acc).Ok?
    requires c in acc.values
    ensures c in ScoreCandidates(s, state, m, k, acc).value.values
    ensures c.mention != KeyOf(m) ==> ScoreCandidates(s, state, m, k, acc).value.values[c] == acc.values[c]
  {
    if k > 0 {
      ScoreCandidatesKeeps(s, state, m, k - 1, acc, c);
    }
  }

  /** computeScores fails exactly when the final score of some candidate of some mention does. */
  lemma {:induction false} ScoresUpToDefined(s: Scoring, state: MessagesState, n: nat)
    requires n <= |s.mentions|
    ensures ScoresUpTo(s, state, n).Ok? <==> forall i, j :: 0 <= i < n && 0 <= j < |s.mentions[i].candidates.keys| ==>
      FinalOf(s, state, s.mentions[i], s.mentions[i].candidates.keys[j]).Ok?
  {
    if n > 0 {
      ScoresUpToDefined(s, state, n - 1);
      var m := s.mentions[n - 1];
      var prev := ScoresUpTo(s, state, n - 1);
      if prev.Ok? {
        ScoreCandidatesDefined(s, state, m, |m.candidates.keys|, prev.value);
        assert ScoresUpTo(s, state, n) == ScoreCandidates(s, state, m, |m.candidates.keys|, prev.value);
      } else {
        assert ScoresUpTo(s, state, n).Err?;
      }
    }
  }

  /**
   * Every candidate of every mention has an entry in computeScores' result, holding its final
   * score when no later mention shares the mention's key.
   */
  lemma {:induction false} ScoresUpToHas(s: Scoring, state: MessagesState, n: nat, i: nat, j: nat)
    requires i < n <= |s.mentions| && WellFormedMentions(s.mentions) && j < |s.mentions[i].candidates.keys|
    requires ScoresUpTo(s, state, n).Ok?
    ensures var c := Candidate(KeyOf(s.mentions[i]), s.mentions[i].candidates.keys[j]);
      c in ScoresUpTo(s, state, n).value.values &&
      ((forall i' :: i < i' < n ==> KeyOf(s.mentions[i']) != KeyOf(s.mentions[i])) ==>
        FinalOf(s, state, s.mentions[i], s.mentions[i].candidates.keys[j]).Ok? &&
        ScoresUpTo(s, state, n).value.values[c] == FinalOf(s, state, s.mentions[i], s.mentions[i].candidates.keys[j]).value)
  {
    var m := s.mentions[n - 1];
    var acc := ScoresUpTo(s, state, n - 1).value;
    var c := Candidate(KeyOf(s.mentions[i]), s.mentions[i].candidates.keys[j]);
    if i == n - 1 {
      ScoreCandidatesHas(s, state, m, |m.candidates.keys|, acc, j);
    } else {
      ScoresUpToHas(s, state, n - 1, i, j);
      ScoreCandidatesKeeps(s, state, m, |m.candidates.keys|, acc, c);
    }
  }

  /** Every entry of computeScores' result is a candidate of a mention, holding that candidate's final score. */
  lemma {:induction false} ScoresUpToFrom(s: Scoring, state: MessagesState, n: nat, c: Candidate)
    requires n <= |s.mentions| && ScoresUpTo(s, state, n).Ok? && c in ScoresUpTo(s, state, n).value.values
    ensures exists i, j :: (0 <= i < n && 0 <= j < |s.mentions[i].candidates.keys| &&
      c == Candidate(KeyOf(s.mentions[i]), s.mentions[i].candidates.keys[j]) &&
      FinalOf(s, state, s.mentions[i], s.mentions[i].candidates.keys[j]).Ok? &&
      ScoresUpTo(s, state, n).value.values[c] == FinalOf(s, state, s.mentions[i], s.mentions[i].candidates.keys[j]).value)
  {
    var m := s.mentions[n - 1];
    var acc := ScoresUpTo(s, state, n - 1).value;
    ScoreCandidatesFrom(s, state, m, |m.candidates.keys|, acc, c);
    if c in acc.values && ScoresUpTo(s, state, n).value.values[c] == acc.values[c] {
      ScoresUpToFrom(s, state, n - 1, c);
    } else {
      var j :| 0 <= j < |m.candidates.keys| && c == Candidate(KeyOf(m), m.candidates.keys[j]) &&
        FinalOf(s, state, m, m.candidates.keys[j]).Ok? &&
        ScoresUpTo(s, state, n).value.values[c] == FinalOf(s, state, m, m.candidates.keys[j]).value;
      assert 0 <= n - 1 < n;
    }
  }

  // ---------------------------------------------------------------------------
  // A failure ends the loops: a failed prefix is the whole result.

  lemma {:induction false} ChooseUpToFails(s: Scoring, state: MessagesState, m: MentionInfo, k: nat, n: nat)
    requires k <= n <= |m.candidates.keys| && ChooseUpTo(s, state, m, k).Err?
    ensures ChooseUpTo(s, state, m, n) == ChooseUpTo(s, state, m, k)
    decreases n
  {
    if k < n {
      ChooseUpToFails(s, state, m, k, n - 1);
    }
  }

  lemma {:induction false} SolutionUpToFails(s: Scoring, state: MessagesState, k: nat, n: nat)
    requires k <= n <= |s.mentions| && SolutionUpTo(s, state, k).Err?
    ensures SolutionUpTo(s, state, n) == SolutionUpTo(s, state, k)
    decreases n
  {
    if k < n {
      SolutionUpToFails(s, state, k, n - 1);
    }
  }

  lemma {:induction false} ScoreCandidatesFails(s: Scoring, state: MessagesState, m: MentionInfo, k: nat, n: nat,
                                                 acc: OrderedMap<Candidate, real>)
    requires k <= n <= |m.candidates.keys| && ScoreCandidates(s, state, m, k, acc).Err?
    ensures ScoreCandidates(s, state, m, n, acc) == ScoreCandidates(s, state, m, k, acc)
    decreases n
  {
    if k < n {
      ScoreCandidatesFails(s, state, m, k, n - 1, acc);
    }
  }

  lemma {:induction false} ScoresUpToFails(s: Scoring, state: MessagesState, k: nat, n: nat)
    requires k <= n <= |s.mentions| && ScoresUpTo(s, state, k).Err?
    ensures ScoresUpTo(s, state, n) == ScoresUpTo(s, state, k)
    decreases n
  {
    if k < n {
      ScoresUpToFails(s, state, k, n - 1);
    }
  }

  // ---------------------------------------------------------------------------
  // Only the final scores matter: states that agree on them agree on scores and solution.

  ghost predicate SameFinal(s: Scoring, st1: MessagesState, st2: MessagesState)
  {
    forall m, e :: FinalOf(s, st1, m, e) == FinalOf(s, st2, m, e)
  }

  lemma {:induction false} ChooseUpToAgree(s: Scoring, st1: MessagesState, st2: MessagesState, m: MentionInfo, k: nat)
    requires k <= |m.candidates.keys| && SameFinal(s, st1, st2)
    ensures ChooseUpTo(s, st1, m, k) == ChooseUpTo(s, st2, m, k)
  {
    if k > 0 {
      ChooseUpToAgree(s, st1, st2, m, k - 1);
    }
  }

  lemma {:induction false} SolutionUpToAgree(s: Scoring, st1: MessagesState, st2: MessagesState, n: nat)
    requires n <= |s.mentions| && SameFinal(s, st1, st2)
    ensures SolutionUpTo(s, st1, n) == SolutionUpTo(s, st2, n)
  {
    if n > 0 {
      SolutionUpToAgree(s, st1, st2, n - 1);
      var m := s.mentions[n - 1];
      ChooseUpToAgree(s, st1, st2, m, |m.candidates.keys|);
    }
  }

  lemma {:induction false} ScoreCandidatesAgree(s: Scoring, st1: MessagesState, st2: MessagesState, m: MentionInfo,
                                                 k: nat, acc: OrderedMap<Candidate, real>)
    requires k <= |m.candidates.keys| && SameFinal(s, st1, st2)
    ensures ScoreCandidates(s, st1, m, k, acc) == ScoreCandidates(s, st2, m, k, acc)
  {
    if k > 0 {
      ScoreCandidatesAgree(s, st1, st2, m, k - 1, acc);
    }
  }

  lemma {:induction false} ScoresUpToAgree(s: Scoring, st1: MessagesState, st2: MessagesState, n: nat)
    requires n <= |s.mentions| && SameFinal(s, st1, st2)
    ensures ScoresUpTo(s, st1, n) == ScoresUpTo(s, st2, n)
  {
    if n > 0 {
      ScoresUpToAgree(s, st1, st2, n - 1);
      if ScoresUpTo(s, st1, n - 1).Ok? {
        var m := s.mentions[n - 1];
        ScoreCandidatesAgree(s, st1, st2, m, |m.candidates.keys|, ScoresUpTo(s, st1, n - 1).value);
      }
    }
  }

  /**
   * Caches with the same totals give the same message scores, scores and solution; in
   * particular a sound cache gives what no cache at all would.
   */
  lemma SameTotalsScoring(s: Scoring, messages: map<Message, real>, cache1: map<Candidate, real>, cache2: map<Candidate, real>)
    requires SameTotals(messages, cache1, cache2, MentionKeys(s.mentions))
    ensures forall from, to, ef, et :: (MessageScoreOf(s, Some((messages, cache1)), from, to, ef, et) ==
      MessageScoreOf(s, Some((messages, cache2)), from, to, ef, et))
    ensures ScoresOf(s, Some((messages, cache1))) == ScoresOf(s, Some((messages, cache2)))
    ensures SolutionOf(s, Some((messages, cache1))) == SolutionOf(s, Some((messages, cache2)))
  {
    var keys := MentionKeys(s.mentions);
    var st1, st2 := Some((messages, cache1)), Some((messages, cache2));
    forall source, entity, exclude ensures Neighbors(st1, source, entity, exclude, keys) == Neighbors(st2, source, entity, exclude, keys) {
      SameTotalsQuery(messages, cache1, cache2, source, entity, exclude, keys);
    }
    assert SameFinal(s, st1, st2) by {
      forall m, e ensures FinalOf(s, st1, m, e) == FinalOf(s, st2, m, e) {
        assert Neighbors(st1, KeyOf(m), e, None, keys) == Neighbors(st2, KeyOf(m), e, None, keys);
      }
    }
    ScoresUpToAgree(s, st1, st2, |s.mentions|);
    SolutionUpToAgree(s, st1, st2, |s.mentions|);
  }

  /** A sound cache scores as an empty one. */
  lemma SoundCacheScoring(s: Scoring, messages: map<Message, real>, cache: map<Candidate, real>)
    requires CacheSound(messages, cache, MentionKeys(s.mentions))
    ensures SameTotals(messages, cache, map[], MentionKeys(s.mentions))
  {
  }

  // ---------------------------------------------------------------------------
  // The scorer.

  class ScorerBasic {
    const mentions: seq<MentionInfo>
    const relatedness: RelatednessMap
    const statics: Statics

    /** The relatedness of each candidate pair is read from the link index once, when the scorer is built. */
    constructor (mentions: seq<MentionInfo>, relatednessOf: (int, int) -> real, statics: Statics)
      ensures this.mentions == mentions && this.statics == statics
      ensures relatedness.pairs == Filled(mentions, relatednessOf)
    {
      this.mentions := mentions;
      this.statics := statics;
      var r := Build(mentions, relatednessOf);
      relatedness := r;
    }

    function State(): Scoring
      reads this, statics
    {
      Scoring(mentions, statics.beta, relatedness)
    }

    /** setBeta writes the static field, so every scorer sharing it scores with the new BETA. */
    method SetBeta(beta: real)
      modifies statics
      ensures statics.beta == beta
    {
      statics.beta := beta;
    }

    method ComputeMessageScore(from: MentionInfo, to: MentionInfo, entityFrom: int, entityTo: int, oldMessages: MessagesMap)
      returns (r: Result<real>)
      modifies oldMessages
      ensures oldMessages.messages == old(oldMessages.messages)
      ensures SameTotals(oldMessages.messages, old(oldMessages.cache), oldMessages.cache, MentionKeys(mentions))
      ensures r == MessageScoreOf(State(), Some((old(oldMessages.messages), old(oldMessages.cache))), from, to, entityFrom, entityTo)
    {
      var l := |mentions|;
      var pairs := Wrap32(l * (l - 1));
      if pairs == 0 {
        return Err(NumberFormat);
      }
      var relatednessPart := 2.0 * statics.beta * relatedness.Get(entityFrom, entityTo) / pairs as real;
      if entityFrom !in from.candidates.values {
        return Err(NullPointer);
      }
      var compatibility := from.candidates.values[entityFrom] / l as real;
      ghost var cache0 := oldMessages.cache;
      var neighbors := oldMessages.SumNeighborMessages(KeyOf(from), entityFrom, Some(KeyOf(to)), MentionKeys(mentions));
      QueryKeepsAllTotals(oldMessages.messages, cache0, cache0, KeyOf(from), entityFrom, MentionKeys(mentions));
      if neighbors.Err? {
        return Err(neighbors.error);
      }
      return Ok(compatibility + relatednessPart + neighbors.value);
    }

    method ComputeScores(messages: MessagesMap) returns (r: Result<OrderedMap<Candidate, real>>)
      requires WellFormedMentions(mentions)
      modifies messages
      ensures messages.messages == old(messages.messages)
      ensures SameTotals(messages.messages, old(messages.cache), messages.cache, MentionKeys(mentions))
      ensures r == ScoresOf(State(), Some((old(messages.messages), old(messages.cache))))
    {
      r := ScoresLoop(State(), messages);
    }

    method ComputeSolution(messages: MessagesMap?) returns (r: Result<OrderedMap<MentionKey, int>>)
      requires WellFormedMentions(mentions)
      modifies messages
      ensures messages != null ==> messages.messages == old(messages.messages)
      ensures messages != null ==> SameTotals(messages.messages, old(messages.cache), messages.cache, MentionKeys(mentions))
      ensures messages == null ==> r == SolutionOf(State(), None)
      ensures messages != null ==> r == SolutionOf(State(), Some((old(messages.messages), old(messages.cache))))
    {
      r := SolutionLoop(State(), messages);
    }
  }

  // ---------------------------------------------------------------------------
  // The loops of computeScores and computeSolution. M and C0 are the messages and the cache
  // when the call began: the cache a loop leaves behind has the same totals as C0.

  /** One mention's candidate loop extends computeScores' loop by one step; a failure there is the result. */
  lemma ScoresStep(s: Scoring, state: MessagesState, i: nat, acc: OrderedMap<Candidate, real>)
    requires i < |s.mentions| && ScoresUpTo(s, state, i) == Ok(acc)
    ensures var next := ScoreCandidates(s, state, s.mentions[i], |s.mentions[i].candidates.keys|, acc);
      ScoresUpTo(s, state, i + 1) == next && (next.Err? ==> ScoresOf(s, state) == next)
  {
    if ScoresUpTo(s, state, i + 1).Err? {
      ScoresUpToFails(s, state, i + 1, |s.mentions|);
    }
  }

  /** One mention's choice extends computeSolution's loop by one step; a failure there is the result. */
  lemma SolutionStep(s: Scoring, state: MessagesState, i: nat, acc: OrderedMap<MentionKey, int>)
    requires i < |s.mentions| && SolutionUpTo(s, state, i) == Ok(acc)
    ensures var c := ChoiceOf(s, state, s.mentions[i]);
      (c.Ok? ==> SolutionUpTo(s, state, i + 1) == Ok(acc.Put(KeyOf(s.mentions[i]), c.value))) &&
      (c.Err? ==> SolutionOf(s, state) == Err(c.error))
  {
    if ChoiceOf(s, state, s.mentions[i]).Err? {
      SolutionUpToFails(s, state, i + 1, |s.mentions|);
    }
  }

  /** computeScores' loop over the mentions. */
  method ScoresLoop(s: Scoring, messages: MessagesMap) returns (r: Result<OrderedMap<Candidate, real>>)
    requires WellFormedMentions(s.mentions)
    modifies messages
    ensures messages.messages == old(messages.messages)
    ensures SameTotals(messages.messages, old(messages.cache), messages.cache, MentionKeys(s.mentions))
    ensures r == ScoresOf(s, Some((old(messages.messages), old(messages.cache))))
  {
    ghost var M, C0 := messages.messages, messages.cache;
    var result := Empty();
    for i := 0 to |s.mentions|
      invariant messages.messages == M && SameTotals(M, C0, messages.cache, MentionKeys(s.mentions))
      invariant ScoresUpTo(s, Some((M, C0)), i) == Ok(result)
    {
      var next := ScoresLoopStep(s, messages, i, result, M, C0);
      if next.Err? {
        return next;
      }
      result := next.value;
    }
    return Ok(result);
  }

  /** One pass of computeScores' loop: the next mention's candidates, or the failure that ends the loop. */
  method ScoresLoopStep(s: Scoring, messages: MessagesMap, i: nat, acc: OrderedMap<Candidate, real>,
                        ghost M: map<Message, real>, ghost C0: map<Candidate, real>)
    returns (r: Result<OrderedMap<Candidate, real>>)
    requires i < |s.mentions| && WellFormedMentions(s.mentions)
    requires messages.messages == M && SameTotals(M, C0, messages.cache, MentionKeys(s.mentions))
    requires ScoresUpTo(s, Some((M, C0)), i) == Ok(acc)
    modifies messages
    ensures messages.messages == M && SameTotals(M, C0, messages.cache, MentionKeys(s.mentions))
    ensures ScoresUpTo(s, Some((M, C0)), i + 1) == r && (r.Err? ==> ScoresOf(s, Some((M, C0))) == r)
  {
    r := ScoreMention(s, messages, s.mentions[i], acc, M, C0);
    ScoresStep(s, Some((M, C0)), i, acc);
  }

  /** computeScores' loop over one mention's candidates. */
  method ScoreMention(s: Scoring, messages: MessagesMap, m: MentionInfo, acc: OrderedMap<Candidate, real>,
                      ghost M: map<Message, real>, ghost C0: map<Candidate, real>)
    returns (r: Result<OrderedMap<Candidate, real>>)
    requires m.candidates.Valid()
    requires messages.messages == M && SameTotals(M, C0, messages.cache, MentionKeys(s.mentions))
    modifies messages
    ensures messages.messages == M && SameTotals(M, C0, messages.cache, MentionKeys(s.mentions))
    ensures r == ScoreCandidates(s, Some((M, C0)), m, |m.candidates.keys|, acc)
  {
    ghost var state := Some((M, C0));
    var keys := m.candidates.keys;
    var senders := MentionKeys(s.mentions);
    var l := |s.mentions|;
    var result := acc;
    for k := 0 to |keys|
      invariant messages.messages == M && SameTotals(M, C0, messages.cache, senders)
      invariant ScoreCandidates(s, state, m, k, acc) == Ok(result)
    {
      var e := keys[k];
      ghost var cache := messages.cache;
      var neighbors := messages.SumNeighborMessages(KeyOf(m), e, None, senders);
      SameTotalsQuery(M, C0, cache, KeyOf(m), e, None, senders);
      QueryKeepsAllTotals(M, C0, cache, KeyOf(m), e, senders);
      if neighbors.Err? {
        ScoreCandidatesFails(s, state, m, k + 1, |keys|, acc);
        return Err(neighbors.error);
      }
      var score := FinalScore(l, neighbors.value, m.candidates.values[e]);
      if score.Err? {
        ScoreCandidatesFails(s, state, m, k + 1, |keys|, acc);
        return Err(score.error);
      }
      result := result.Put(Candidate(KeyOf(m), e), score.value);
    }
    return Ok(result);
  }

  /** computeSolution's loop over the mentions. */
  method SolutionLoop(s: Scoring, messages: MessagesMap?) returns (r: Result<OrderedMap<MentionKey, int>>)
    requires WellFormedMentions(s.mentions)
    modifies messages
    ensures messages != null ==> messages.messages == old(messages.messages)
    ensures messages != null ==> SameTotals(messages.messages, old(messages.cache), messages.cache, MentionKeys(s.mentions))
    ensures messages == null ==> r == SolutionOf(s, None)
    ensures messages != null ==> r == SolutionOf(s, Some((old(messages.messages), old(messages.cache))))
  {
    ghost var state: MessagesState := if messages == null then None else Some((messages.messages, messages.cache));
    var solution := Empty();
    for i := 0 to |s.mentions|
      invariant messages != null ==> (messages.messages == state.value.0 &&
        SameTotals(state.value.0, state.value.1, messages.cache, MentionKeys(s.mentions)))
      invariant SolutionUpTo(s, state, i) == Ok(solution)
    {
      var next := SolutionLoopStep(s, messages, i, solution, state);
      if next.Err? {
        return next;
      }
      solution := next.value;
    }
    return Ok(solution);
  }

  /** One pass of computeSolution's loop: the next mention's choice put into the solution, or the failure that ends the loop. */
  method SolutionLoopStep(s: Scoring, messages: MessagesMap?, i: nat, acc: OrderedMap<MentionKey, int>, ghost state: MessagesState)
    returns (r: Result<OrderedMap<MentionKey, int>>)
    requires i < |s.mentions| && WellFormedMentions(s.mentions)
    requires messages == null <==> state == None
    requires messages != null ==> (messages.messages == state.value.0 &&
      SameTotals(state.value.0, state.value.1, messages.cache, MentionKeys(s.mentions)))
    requires SolutionUpTo(s, state, i) == Ok(acc)
    modifies messages
    ensures messages != null ==> (messages.messages == state.value.0 &&
      SameTotals(state.value.0, state.value.1, messages.cache, MentionKeys(s.mentions)))
    ensures r.Ok? ==> SolutionUpTo(s, state, i + 1) == r
    ensures r.Err? ==> SolutionOf(s, state) == r
  {
    var m := s.mentions[i];
    var choice := Choose(s, messages, m, state);
    SolutionStep(s, state, i, acc);
    if choice.Err? {
      return Err(choice.error);
    }
    return Ok(acc.Put(KeyOf(m), choice.value));
  }

  /** computeSolution's loop over one mention's candidates: the running best replaced only by a strictly greater score. */
  method Choose(s: Scoring, messages: MessagesMap?, m: MentionInfo, ghost state: MessagesState) returns (r: Result<int>)
    requires m.candidates.Valid()
    requires messages == null <==> state == None
    requires messages != null ==> (messages.messages == state.value.0 &&
      SameTotals(state.value.0, state.value.1, messages.cache, MentionKeys(s.mentions)))
    modifies messages
    ensures messages != null ==> (messages.messages == state.value.0 &&
      SameTotals(state.value.0, state.value.1, messages.cache, MentionKeys(s.mentions)))
    ensures r == ChoiceOf(s, state, m)
  {
    var keys := m.candidates.keys;
    var senders := MentionKeys(s.mentions);
    var l := |s.mentions|;
    var best := (-1, 0.0);
    for k := 0 to |keys|
      invariant messages != null ==> (messages.messages == state.value.0 &&
        SameTotals(state.value.0, state.value.1, messages.cache, senders))
      invariant ChooseUpTo(s, state, m, k) == Ok(best)
    {
      var e := keys[k];
      if messages == null {
        ChooseUpToFails(s, state, m, k + 1, |keys|);
        return Err(NullPointer);
      }
      ghost var cache := messages.cache;
      var neighbors := messages.SumNeighborMessages(KeyOf(m), e, None, senders);
      SameTotalsQuery(state.value.0, state.value.1, cache, KeyOf(m), e, None, senders);
      QueryKeepsAllTotals(state.value.0, state.value.1, cache, KeyOf(m), e, senders);
      if neighbors.Err? {
        ChooseUpToFails(s, state, m, k + 1, |keys|);
        return Err(neighbors.error);
      }
      var score := FinalScore(l, neighbors.value, m.candidates.values[e]);
      if score.Err? {
        ChooseUpToFails(s, state, m, k + 1, |keys|);
        return Err(score.error);
      }
      if best.0 == -1 || score.value > best.1 {
        best := (e, score.value);
      }
    }
    return Ok(best.0);
  }
}
