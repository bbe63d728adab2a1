/**
 * A mention: an n-gram of the document that names an entity, with its keyphraseness,
 * document frequency, candidate entities and their compatibility scores.
 */
module Mentions {
  import opened Wrappers
  import opened JavaLang
  import opened OrderedMaps
  import opened CandidatesIndexes
  import Tokens
  import Ngrams

  /** The default number of context tokens around a mention. */
  const WINDOW_SIZE: nat := 50

  /** A snapshot of a Mention's fields. Compatibility scores are exact reals. */
  datatype MentionInfo = MentionInfo(
    ngram: string,
    originalNgram: string,
    offset: int,
    length: int,
    keyphraseness: real,
    candidates: OrderedMap<int, real>,
    importance: real,
    df: int,
    filename: string)

  /** What Mention.equals compares: the n-gram, the offset and the length. */
  type MentionKey = (string, int, int)

  function KeyOf(m: MentionInfo): MentionKey
  {
    (m.ngram, m.offset, m.length)
  }

  function MentionKeys(mentions: seq<MentionInfo>): (r: seq<MentionKey>)
    ensures |r| == |mentions| && forall i :: 0 <= i < |mentions| ==> r[i] == KeyOf(mentions[i])
  {
    seq(|mentions|, i requires 0 <= i < |mentions| => KeyOf(mentions[i]))
  }

  /** Each mention's candidate map is a well-formed map, as a HashMap field always is. */
  ghost predicate WellFormedMentions(mentions: seq<MentionInfo>)
  {
    forall i :: 0 <= i < |mentions| ==> mentions[i].candidates.Valid()
  }

  /** Mention.equals: the n-gram, the offset and the length agree; scores are ignored. */
  predicate Equal(a: MentionInfo, b: MentionInfo)
  {
    a.ngram == b.ngram && a.offset == b.offset && a.length == b.length
  }

  /** Mention.hashCode: the n-gram's hash plus offset plus length, in int arithmetic. */
  function Hash(m: MentionInfo): (h: int)
    ensures IsInt32(h)
  {
    Wrap32(StringHash(m.ngram) + m.offset + m.length)
  }

  /** Equal mentions hash alike, whatever their scores. */
  lemma HashConsistent(a: MentionInfo, b: MentionInfo)
    requires Equal(a, b)
    ensures Hash(a) == Hash(b)
  {
  }

  /**
   * Mention.compareTo: by keyphraseness, then by offset, then by the n-gram's string order.
   * The length is not consulted.
   */
  function CompareTo(a: MentionInfo, b: MentionInfo): (r: int)
    ensures r == 0 <==> a.keyphraseness == b.keyphraseness && a.offset == b.offset && a.ngram == b.ngram
    ensures r < 0 <==> Less(a, b)
    ensures r > 0 <==> Less(b, a)
  {
    if a.keyphraseness == b.keyphraseness then
      if a.offset == b.offset then StringCompare(a.ngram, b.ngram)
      else if a.offset < b.offset then -1 else 1
    else if a.keyphraseness < b.keyphraseness then -1 else 1
  }

  /** The strict order whose sign CompareTo reports. */
  predicate Less(a: MentionInfo, b: MentionInfo)
  {
    a.keyphraseness < b.keyphraseness ||
    (a.keyphraseness == b.keyphraseness &&
      (a.offset < b.offset || (a.offset == b.offset && StringLess(a.ngram, b.ngram))))
  }

  /** Less is a strict order: irreflexive and transitive. */
  lemma LessStrictOrder(a: MentionInfo, b: MentionInfo, c: MentionInfo)
    ensures !Less(a, a)
    ensures Less(a, b) && Less(b, c) ==> Less(a, c)
  {
    StringLessIrreflexive(a.ngram);
    if Less(a, b) && Less(b, c) && a.keyphraseness == b.keyphraseness == c.keyphraseness
      && a.offset == b.offset == c.offset {
      StringLessTransitive(a.ngram, b.ngram, c.ngram);
    }
  }

  /** Two mentions are ordered one way or the other unless CompareTo calls them the same. */
  lemma LessTotal(a: MentionInfo, b: MentionInfo)
    requires CompareTo(a, b) != 0
    ensures Less(a, b) || Less(b, a)
  {
  }

  /** CompareTo can report 0 for mentions that are not equal: the length is ignored. */
  lemma CompareToIgnoresLength()
    ensures exists a, b :: CompareTo(a, b) == 0 && !Equal(a, b)
  {
    var a := MentionInfo("los", "", 17, 3, 0.5, Empty(), 0.0, 0, "");
    var b := a.(length := 4);
    assert CompareTo(a, b) == 0 by { StringLessIrreflexive("los"); }
  }

  // ---------------------------------------------------------------------------
  // Sums of compatibility scores.

  function Sum(xs: seq<real>): real
  {
    if |xs| == 0 then 0.0 else Sum(xs[..|xs| - 1]) + xs[|xs| - 1]
  }

  lemma SumAppend(xs: seq<real>, v: real)
    ensures Sum(xs + [v]) == Sum(xs) + v
  {
    assert (xs + [v])[..|xs|] == xs;
  }

  lemma {:induction false} SumConcat(xs: seq<real>, ys: seq<real>)
    ensures Sum(xs + ys) == Sum(xs) + Sum(ys)
  {
    if |ys| == 0 {
      assert xs + ys == xs;
    } else {
      SumConcat(xs, ys[..|ys| - 1]);
      assert (xs + ys)[..|xs + ys| - 1] == xs + ys[..|ys| - 1];
    }
  }

  /** A sum of positive terms is non-negative, and positive when there is a term. */
  lemma {:induction false} SumPositive(xs: seq<real>)
    requires forall k :: 0 <= k < |xs| ==> xs[k] > 0.0
    ensures Sum(xs) >= 0.0 && (|xs| > 0 ==> Sum(xs) > 0.0)
  {
    if |xs| > 0 {
      SumPositive(xs[..|xs| - 1]);
    }
  }

  lemma {:induction false} SumUpdate(xs: seq<real>, p: nat, v: real)
    requires p < |xs|
    ensures Sum(xs[p := v]) == Sum(xs) - xs[p] + v
    decreases |xs|
  {
    var ys := xs[p := v];
    if p == |xs| - 1 {
      assert ys[..|ys| - 1] == xs[..|xs| - 1];
    } else {
      assert ys[..|ys| - 1] == xs[..|xs| - 1][p := v];
      SumUpdate(xs[..|xs| - 1], p, v);
    }
  }

  /** The sum of a mention's compatibility scores, over its candidates in iteration order. */
  function SumScores(c: OrderedMap<int, real>): real
    requires c.Valid()
  {
    Sum(c.ValuesInOrder())
  }

  /**
   * Setting one entity's score changes the total by exactly the difference for that entity:
   * no other candidate's score is touched.
   */
  lemma SumScoresAfterPut(c: OrderedMap<int, real>, entity: int, score: real)
    requires c.Valid()
    ensures c.Put(entity, score).Valid()
    ensures SumScores(c.Put(entity, score)) ==
      SumScores(c) - (if entity in c.values then c.values[entity] else 0.0) + score
  {
    PutValid(c, entity, score);
    var d := c.Put(entity, score);
    if entity in c.values {
      var p :| 0 <= p < |c.keys| && c.keys[p] == entity;
      assert d.ValuesInOrder() == c.ValuesInOrder()[p := score];
      SumUpdate(c.ValuesInOrder(), p, score);
    } else {
      assert d.ValuesInOrder() == c.ValuesInOrder() + [score];
      SumAppend(c.ValuesInOrder(), score);
    }
  }

  // ---------------------------------------------------------------------------
  // The context window around a mention.

  predicate IncreasingOffsets(tokens: seq<Tokens.Token>)
  {
    forall i, j :: 0 <= i < j < |tokens| ==> tokens[i].offset < tokens[j].offset
  }

  /** The binary search for the token at `target`, between start and end inclusive. */
  function SearchFrom(tokens: seq<Tokens.Token>, target: int, start: int, end: int): (mid: int)
    requires 0 <= start <= end < |tokens|
    ensures start <= mid <= end
    decreases end - start
  {
    var middle := (start + end + 1) / 2;
    if start >= end then middle
    else if tokens[middle].offset == target then middle
    else if tokens[middle].offset > target then SearchFrom(tokens, target, start, middle - 1)
    else SearchFrom(tokens, target, middle, end)
  }

  /** The index the search settles on; 0 for an empty token list. */
  function SearchIndex(tokens: seq<Tokens.Token>, target: int): (mid: int)
    ensures |tokens| == 0 ==> mid == 0
    ensures |tokens| > 0 ==> 0 <= mid < |tokens|
  {
    if |tokens| == 0 then 0 else SearchFrom(tokens, target, 0, |tokens| - 1)
  }

  /** The window [from, to) of `window` tokens around index mid, clamped to the n tokens. */
  function WindowBounds(mid: int, n: nat, window: nat): (bounds: (int, int))
    requires 0 <= mid && (n == 0 ==> mid == 0) && (n > 0 ==> mid < n)
    ensures 0 <= bounds.0 <= bounds.1 <= n
    ensures bounds.1 - bounds.0 == if n < window then n else window
  {
    if mid - window / 2 < 0 then (0, if n < window then n else window)
    else if mid + window / 2 >= n then (if n - window < 0 then 0 else n - window, n)
    else (mid - window / 2, mid - window / 2 + window)
  }

  function Texts(tokens: seq<Tokens.Token>): (texts: seq<string>)
    ensures |texts| == |tokens|
    ensures forall i :: 0 <= i < |tokens| ==> texts[i] == tokens[i].token
  {
    seq(|tokens|, i requires 0 <= i < |tokens| => tokens[i].token)
  }

  /** The context extractContext returns for a mention at `offset`. */
  function ContextOf(tokens: seq<Tokens.Token>, offset: int, window: nat): seq<string>
  {
    var bounds := WindowBounds(SearchIndex(tokens, offset), |tokens|, window);
    Texts(tokens[bounds.0..bounds.1])
  }

  /** The index of the first context token. */
  function ContextStart(tokens: seq<Tokens.Token>, offset: int, window: nat): int
  {
    WindowBounds(SearchIndex(tokens, offset), |tokens|, window).0
  }

  /** The context always holds min(|tokens|, window) consecutive token strings. */
  lemma ContextSize(tokens: seq<Tokens.Token>, offset: int, window: nat)
    ensures var size := if |tokens| < window then |tokens| else window;
      var from := ContextStart(tokens, offset, window);
      |ContextOf(tokens, offset, window)| == size &&
      0 <= from && from + size <= |tokens| &&
      ContextOf(tokens, offset, window) == Texts(tokens[from..from + size])
  {
  }

  lemma {:induction false} SearchFromFinds(tokens: seq<Tokens.Token>, target: int, start: int, end: int, idx: int)
    requires 0 <= start <= idx <= end < |tokens|
    requires IncreasingOffsets(tokens) && tokens[idx].offset == target
    ensures SearchFrom(tokens, target, start, end) == idx
    decreases end - start
  {
    var middle := (start + end + 1) / 2;
    if start < end && tokens[middle].offset != target {
      if tokens[middle].offset > target {
        SearchFromFinds(tokens, target, start, middle - 1, idx);
      } else {
        SearchFromFinds(tokens, target, middle, end, idx);
      }
    }
  }

  /**
   * When some token starts at the mention's offset, the search stops at that token and the
   * window is centred on it, clamped at the ends of the document.
   */
  lemma ContextAroundMatch(tokens: seq<Tokens.Token>, offset: int, window: nat, idx: int)
    requires IncreasingOffsets(tokens)
    requires 0 <= idx < |tokens| && tokens[idx].offset == offset
    ensures SearchIndex(tokens, offset) == idx
    ensures ContextOf(tokens, offset, window) == Texts(tokens[WindowBounds(idx, |tokens|, window).0..WindowBounds(idx, |tokens|, window).1])
  {
    SearchFromFinds(tokens, offset, 0, |tokens| - 1, idx);
  }

  /** With a three-token window over "michael lived in los", each mention gets the expected context. */
  lemma ContextExample()
    ensures var tokens := [Tokens.Token("michael", 0, 7), Tokens.Token("lived", 8, 5),
                           Tokens.Token("in", 14, 2), Tokens.Token("los", 17, 3)];
      ContextOf(tokens, 17, 3) == ["lived", "in", "los"] &&
      ContextOf(tokens, 14, 3) == ["lived", "in", "los"] &&
      ContextOf(tokens, 8, 3) == ["michael", "lived", "in"] &&
      ContextOf(tokens, 0, 3) == ["michael", "lived", "in"]
  {
    var tokens := [Tokens.Token("michael", 0, 7), Tokens.Token("lived", 8, 5),
                   Tokens.Token("in", 14, 2), Tokens.Token("los", 17, 3)];
    ContextAroundMatch(tokens, 17, 3, 3);
    ContextAroundMatch(tokens, 14, 3, 2);
    ContextAroundMatch(tokens, 8, 3, 1);
    ContextAroundMatch(tokens, 0, 3, 0);
    assert tokens[1..4] == [tokens[1], tokens[2], tokens[3]];
    assert tokens[0..3] == [tokens[0], tokens[1], tokens[2]];
  }

  // ---------------------------------------------------------------------------

  /** A detected mention whose scores and statistics are filled in after construction. */
  class Mention {
    var ngram: string
    var originalNgram: string
    var offset: int
    var length: int
    var keyphraseness: real
    var candidates: OrderedMap<int, real>
    var importance: real
    var df: int
    var filename: string

    ghost predicate Valid()
      reads this
    {
      candidates.Valid()
    }

    function Info(): MentionInfo
      reads this
    {
      MentionInfo(ngram, originalNgram, offset, length, keyphraseness, candidates, importance, df, filename)
    }

    /** Mention(String, int, int): no candidates yet; the other statistics are zero. */
    constructor (ngram: string, offset: int, length: int)
      ensures Valid()
      ensures Info() == MentionInfo(ngram, "", offset, length, 0.0, Empty(), 0.0, 0, "")
    {
      this.ngram := ngram;
      this.originalNgram := "";
      this.offset := offset;
      this.length := length;
      this.keyphraseness := 0.0;
      this.candidates := Empty();
      this.importance := 0.0;
      this.df := 0;
      this.filename := "";
    }

    /** Mention(Ngram): takes the n-gram's string, offset and length. */
    constructor FromNgram(n: Ngrams.NgramValue)
      ensures Valid()
      ensures Info() == MentionInfo(n.ngram, "", n.offset, n.length, 0.0, Empty(), 0.0, 0, "")
    {
      ngram := n.ngram;
      originalNgram := "";
      offset := n.offset;
      length := n.length;
      keyphraseness := 0.0;
      candidates := Empty();
      importance := 0.0;
      df := 0;
      filename := "";
    }

    /** setEntityCompatibilityScore: inserts or overwrites this entity's score only. */
    method SetEntityCompatibilityScore(entity: int, score: real)
      requires Valid()
      modifies this
      ensures Valid()
      ensures Info() == old(Info()).(candidates := old(candidates).Put(entity, score))
      ensures SumScores(candidates) ==
        old(SumScores(candidates)) - (if entity in old(candidates.values) then old(candidates.values[entity]) else 0.0) + score
    {
      SumScoresAfterPut(candidates, entity, score);
      candidates := candidates.Put(entity, score);
    }

    /** setImportance. */
    method SetImportance(value: real)
      modifies this
      ensures Info() == old(Info()).(importance := value)
    {
      importance := value;
    }

    /**
     * computeKeyphrasenessAndDF: df becomes the index's document count for the n-gram and
     * keyphraseness the ratio linked / total. A name missing from the index is a null pair.
     */
    method ComputeKeyphrasenessAndDF(index: CandidatesIndex) returns (r: Result<()>)
      requires WellFormed(index)
      modifies this
      ensures r.Err? <==> ngram !in index
      ensures r.Err? ==> r.error == NullPointer && Info() == old(Info())
      ensures r.Ok? ==> Info() == old(Info()).(df := index[ngram].totalDocs,
        keyphraseness := index[ngram].linkedDocs as real / index[ngram].totalDocs as real)
    {
      if ngram !in index {
        return Err(NullPointer);
      }
      var entry := index[ngram];
      df := entry.totalDocs;
      keyphraseness := entry.linkedDocs as real / df as real;
      return Ok(());
    }

    /** computeSumCompatibilities: the total of all candidate scores, 0 with no candidates. */
    method ComputeSumCompatibilities() returns (sum: real)
      requires Valid()
      ensures sum == SumScores(candidates)
      ensures |candidates.keys| == 0 ==> sum == 0.0
    {
      var values := candidates.ValuesInOrder();
      sum := 0.0;
      var i := 0;
      while i < |values|
        invariant 0 <= i <= |values|
        invariant sum == Sum(values[..i])
      {
        assert values[..i + 1][..i] == values[..i];
        sum := sum + values[i];
        i := i + 1;
      }
      assert values[..i] == values;
    }

    /** The binary search of extractContext: the index of the token at this mention's offset. */
    method SearchOffset(allContext: seq<Tokens.Token>) returns (middle: int)
      ensures middle == SearchIndex(allContext, offset)
    {
      var n := |allContext|;
      if n == 0 {
        return 0;
      }
      var start := 0;
      var end := n - 1;
      middle := (start + end + 1) / 2;
      while start < end
        invariant 0 <= start <= end < n
        invariant middle == (start + end + 1) / 2
        invariant SearchFrom(allContext, offset, start, end) == SearchFrom(allContext, offset, 0, n - 1)
        decreases end - start
      {
        if allContext[middle].offset == offset {
          break;
        } else if allContext[middle].offset > offset {
          end := middle - 1;
        } else {
          start := middle;
        }
        middle := (start + end + 1) / 2;
      }
    }

    /**
     * extractContext: binary-searches the tokens (ascending by offset) for this mention's
     * offset and returns the texts of the window of tokens around the index found.
     */
    method ExtractContext(allContext: seq<Tokens.Token>, window: nat) returns (context: seq<string>)
      ensures context == ContextOf(allContext, offset, window)
    {
      var n := |allContext|;
      var middle := SearchOffset(allContext);
      var half := window / 2;
      var fromIndex, toIndex;
      if middle - half < 0 {
        fromIndex := 0;
        toIndex := if n < fromIndex + window then n else fromIndex + window;
      } else if middle + half >= n {
        toIndex := n;
        fromIndex := if 0 < toIndex - window then toIndex - window else 0;
      } else {
        fromIndex := middle - half;
        toIndex := fromIndex + window;
      }
      assert (fromIndex, toIndex) == WindowBounds(middle, n, window);
      context := [];
      var k := fromIndex;
      while k < toIndex
        invariant fromIndex <= k <= toIndex && |context| == k - fromIndex
        invariant forall t :: 0 <= t < |context| ==> context[t] == allContext[fromIndex + t].token
      {
        context := context + [allContext[k].token];
        k := k + 1;
      }
      assert context == Texts(allContext[fromIndex..toIndex]);
    }
  }
}
