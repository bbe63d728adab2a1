/**
 * Mention detection: the document is tokenized, every run of up to NGRAM_SIZE consecutive
 * tokens becomes an n-gram, and the n-grams found in the name index are ranked by
 * keyphraseness; the best ones become the document's mentions.
 */
module MentionDetection {
  import opened Wrappers
  import opened JavaLang
  import opened OrderedMaps
  import opened CandidatesIndexes
  import opened Tokens
  import opened Ngrams
  import opened Mentions

  const NGRAM_SIZE: int := 11
  /** Names with more candidates than this are skipped when skipManyCandidates is set. */
  const MAX_CANDIDATES: int := 2000
  /** The non-breaking space, as read from HTML pages. */
  const NBSP: char := 160 as char

  /** Characters that separate tokens and are dropped. */
  const DELIMITERS: set<char> := {
    ' ', '\t', '\n', '\r', 12 as char, 0x2014 as char, '/', '*', '`', '"', '\'', '(', ')',
    '[', ']', '{', '}', ',', 0x2018 as char, 0x2019 as char, 0x201C as char, 0x201D as char,
    ';', '?', '_', NBSP }

  /** Characters that separate tokens and are kept as one-character tokens. */
  const DELIMITERS_KEEP: set<char> := {'.', '!', '-', ':'}

  predicate IsDelimiter(c: char)
  {
    c in DELIMITERS || c in DELIMITERS_KEEP
  }

  // ---------------------------------------------------------------------------
  // Tokenization.

  /** The end of the run of non-delimiters that starts at i. */
  function RunEnd(s: string, i: nat): (j: nat)
    requires i <= |s|
    ensures i <= j <= |s|
    ensures forall k :: i <= k < j ==> !IsDelimiter(s[k])
    ensures j < |s| ==> IsDelimiter(s[j])
    decreases |s| - i
  {
    if i == |s| || IsDelimiter(s[i]) then i else RunEnd(s, i + 1)
  }

  /**
   * The tokens of s from position i on: every maximal run of non-delimiters is one token,
   * lowercased, at the offset of its first character; every kept delimiter is a token of
   * its own; the other delimiters are dropped.
   */
  function TokenizeFrom(s: string, i: nat): seq<Token>
    requires i <= |s|
    decreases |s| - i
  {
    if i == |s| then []
    else if s[i] in DELIMITERS_KEEP then [NewToken([s[i]], i)] + TokenizeFrom(s, i + 1)
    else if s[i] in DELIMITERS then TokenizeFrom(s, i + 1)
    else var j := RunEnd(s, i); [NewToken(s[i..j], i)] + TokenizeFrom(s, j)
  }

  function Tokenize(s: string): seq<Token>
  {
    TokenizeFrom(s, 0)
  }

  lemma RunEndAt(s: string, p: nat, i: nat)
    requires p <= i < |s| && IsDelimiter(s[i])
    requires forall k :: p <= k < i ==> !IsDelimiter(s[k])
    ensures RunEnd(s, p) == i
  {
  }

  /** At a delimiter, a pending run ends in one token, followed by the delimiter's own tokens. */
  lemma TokenizeAtDelimiter(t: string, p: nat, i: nat)
    requires p <= i < |t| && IsDelimiter(t[i])
    requires forall k :: p <= k < i ==> !IsDelimiter(t[k])
    ensures p < i ==> TokenizeFrom(t, p) == [NewToken(t[p..i], p)] + TokenizeFrom(t, i)
    ensures TokenizeFrom(t, i) ==
      (if t[i] in DELIMITERS_KEEP then [NewToken([t[i]], i)] else []) + TokenizeFrom(t, i + 1)
  {
    RunEndAt(t, p, i);
  }

  /**
   * tokenizeText: scans the text with a space appended, accumulating the current run of
   * non-delimiters and flushing it at each delimiter.
   */
  method TokenizeText(text: string) returns (result: seq<Token>)
    ensures result == Tokenize(text)
  {
    var t := text + " ";
    result := [];
    var token: string := "";
    var offset := -1;
    ghost var pending := 0;
    var i := 0;
    while i < |t|
      invariant pending <= i <= |t|
      invariant token == t[pending..i]
      invariant |token| > 0 ==> offset == pending
      invariant forall k :: pending <= k < i ==> !IsDelimiter(t[k])
      invariant result + TokenizeFrom(t, pending) == TokenizeFrom(t, 0)
    {
      var ch := t[i];
      if !IsDelimiter(ch) {
        if |token| == 0 {
          offset := i;
        }
        token := token + [ch];
      } else {
        TokenizeAtDelimiter(t, pending, i);
        if |token| > 0 {
          result := result + [NewToken(token, offset)];
        }
        if ch in DELIMITERS_KEEP {
          result := result + [NewToken([ch], i)];
        }
        token := "";
        pending := i + 1;
      }
      i := i + 1;
    }
    assert IsDelimiter(t[|t| - 1]);
    TrailingDelimiter(text, ' ', 0);
  }

  /** A trailing dropped delimiter changes nothing: the space tokenizeText appends only flushes the last run. */
  lemma {:induction false} TrailingDelimiter(s: string, c: char, i: nat)
    requires c in DELIMITERS && i <= |s|
    ensures TokenizeFrom(s + [c], i) == TokenizeFrom(s, i)
    decreases |s| - i
  {
    var t := s + [c];
    if i == |s| {
      assert TokenizeFrom(t, i) == TokenizeFrom(t, i + 1);
    } else if s[i] in DELIMITERS_KEEP || s[i] in DELIMITERS {
      TrailingDelimiter(s, c, i + 1);
    } else {
      var j := RunEnd(s, i);
      RunEndAt(t, i, j);
      assert t[i..j] == s[i..j];
      TrailingDelimiter(s, c, j);
    }
  }

  /** Offsets are strictly increasing and lie in [i, |s|). */
  lemma {:induction false} TokenOffsetsIncrease(s: string, i: nat)
    requires i <= |s|
    ensures var ts := TokenizeFrom(s, i);
      (forall k :: 0 <= k < |ts| ==> i <= ts[k].offset < |s|) &&
      IncreasingOffsets(ts)
    decreases |s| - i
  {
    if i < |s| {
      if s[i] in DELIMITERS_KEEP || s[i] in DELIMITERS {
        TokenOffsetsIncrease(s, i + 1);
      } else {
        TokenOffsetsIncrease(s, RunEnd(s, i));
      }
    }
  }

  /** A kept delimiter token: the single character at its offset, as a token of its own. */
  predicate IsKeptDelimiter(s: string, t: Token)
  {
    0 <= t.offset < |s| && s[t.offset] in DELIMITERS_KEEP && t == NewToken([s[t.offset]], t.offset)
  }

  /**
   * A word token starting at or after `from`: the lowercased text of a non-empty run of
   * non-delimiters that cannot be extended on either side.
   */
  predicate IsWord(s: string, t: Token, from: nat)
  {
    from <= t.offset && 0 < t.length && t.offset + t.length <= |s| &&
    t == NewToken(s[t.offset..t.offset + t.length], t.offset) &&
    (forall k :: t.offset <= k < t.offset + t.length ==> !IsDelimiter(s[k])) &&
    (t.offset == from || IsDelimiter(s[t.offset - 1])) &&
    (t.offset + t.length == |s| || IsDelimiter(s[t.offset + t.length]))
  }

  /** Every token is a maximal run of non-delimiters or a kept delimiter. */
  lemma {:induction false} TokensAreWordsOrKept(s: string, i: nat)
    requires i <= |s|
    requires i == 0 || IsDelimiter(s[i - 1]) || (i < |s| && IsDelimiter(s[i]))
    ensures forall t :: t in TokenizeFrom(s, i) ==> IsKeptDelimiter(s, t) || IsWord(s, t, i)
    decreases |s| - i
  {
    if i < |s| {
      var ts := TokenizeFrom(s, i);
      if IsDelimiter(s[i]) {
        var rest := TokenizeFrom(s, i + 1);
        TokensAreWordsOrKept(s, i + 1);
        assert ts == (if s[i] in DELIMITERS_KEEP then [NewToken([s[i]], i)] else []) + rest;
        forall t | t in ts
          ensures IsKeptDelimiter(s, t) || IsWord(s, t, i)
        {
          if t in rest && IsWord(s, t, i + 1) {
            assert t.offset == i + 1 ==> IsDelimiter(s[t.offset - 1]);
          }
        }
      } else {
        var j := RunEnd(s, i);
        var rest := TokenizeFrom(s, j);
        assert ts == [NewToken(s[i..j], i)] + rest;
        RunIsWord(s, i);
        if j < |s| {
          TokensAreWordsOrKept(s, j);
          forall t | t in rest && IsWord(s, t, j)
            ensures IsWord(s, t, i)
          {
            assert t.offset == j ==> false;
          }
        }
      }
    }
  }

  /** The run of non-delimiters at the start of a scan is a word token. */
  lemma RunIsWord(s: string, i: nat)
    requires i < |s| && !IsDelimiter(s[i])
    ensures IsWord(s, NewToken(s[i..RunEnd(s, i)], i), i)
  {
    var j := RunEnd(s, i);
    var t := NewToken(s[i..j], i);
    assert t.offset + t.length == j;
  }

  /** The token emitted first from position i, if any, and the position scanning resumes at. */
  lemma TokenizeStep(s: string, i: nat) returns (head: seq<Token>, next: nat)
    requires i < |s|
    ensures i < next <= |s|
    ensures TokenizeFrom(s, i) == head + TokenizeFrom(s, next)
    ensures s[i] in DELIMITERS_KEEP ==> next == i + 1 && head == [NewToken([s[i]], i)]
    ensures s[i] in DELIMITERS ==> next == i + 1 && head == []
    ensures !IsDelimiter(s[i]) ==> next == RunEnd(s, i) && head == [NewToken(s[i..next], i)]
  {
    next := if IsDelimiter(s[i]) then i + 1 else RunEnd(s, i);
    head := if s[i] in DELIMITERS_KEEP then [NewToken([s[i]], i)]
      else if s[i] in DELIMITERS then []
      else [NewToken(s[i..next], i)];
  }

  /** Nothing but delimiters is lost: every non-delimiter character lies inside some token. */
  lemma {:induction false} WordCharactersCovered(s: string, i: nat, p: nat)
    requires i <= p < |s| && !IsDelimiter(s[p])
    ensures var ts := TokenizeFrom(s, i);
      exists k :: 0 <= k < |ts| && ts[k].offset <= p < ts[k].offset + ts[k].length
    decreases |s| - i
  {
    var ts := TokenizeFrom(s, i);
    var head, next := TokenizeStep(s, i);
    if p < next {
      assert ts[0] == head[0];
    } else {
      WordCharactersCovered(s, next, p);
      var rest := TokenizeFrom(s, next);
      var k :| 0 <= k < |rest| && rest[k].offset <= p < rest[k].offset + rest[k].length;
      assert ts[k + |head|] == rest[k];
    }
  }

  /** Every kept delimiter becomes a one-character token at its own offset. */
  lemma {:induction false} KeptDelimitersAreTokens(s: string, i: nat, p: nat)
    requires i <= p < |s| && s[p] in DELIMITERS_KEEP
    ensures var ts := TokenizeFrom(s, i);
      exists k :: 0 <= k < |ts| && ts[k].offset == p && ts[k].token == [s[p]]
    decreases |s| - i
  {
    var ts := TokenizeFrom(s, i);
    var head, next := TokenizeStep(s, i);
    if p < next {
      assert ts[0] == head[0];
      assert LowerChar(s[p]) == s[p];
      assert ts[0].token == [s[p]];
    } else {
      KeptDelimitersAreTokens(s, next, p);
      var rest := TokenizeFrom(s, next);
      var k :| 0 <= k < |rest| && rest[k].offset == p && rest[k].token == [s[p]];
      assert ts[k + |head|] == rest[k];
    }
  }

  // ---------------------------------------------------------------------------
  // N-grams.

  /** The texts of tokens j..i inclusive joined by single spaces, built left to right as append does. */
  function JoinRange(tokens: seq<Token>, j: nat, i: nat): string
    requires j <= i < |tokens|
    decreases i
  {
    if j == i then tokens[i].token else JoinRange(tokens, j, i - 1) + " " + tokens[i].token
  }

  /** The n-gram of tokens j..i inclusive. */
  function Span(tokens: seq<Token>, j: nat, i: nat): NgramValue
    requires j <= i < |tokens|
  {
    NgramValue(JoinRange(tokens, j, i), tokens[j].offset,
               tokens[i].offset + tokens[i].length - tokens[j].offset)
  }

  /** The first token of the longest n-gram of at most m tokens that ends at token i. */
  function Lowest(i: nat, m: nat): nat
  {
    if i + 1 < m then 0 else i + 1 - m
  }

  /** Row i holds the n-grams of tokens j..i for every j <= i. */
  function SpansOf(tokens: seq<Token>): (r: seq<seq<NgramValue>>)
    ensures |r| == |tokens| && forall i :: 0 <= i < |r| ==> |r[i]| == i + 1
  {
    seq(|tokens|, i requires 0 <= i < |tokens| => seq(i + 1, j requires 0 <= j <= i => Span(tokens, j, i)))
  }

  /** The entry for the n-gram of tokens j..i, or an empty n-gram outside the table. */
  function At(spans: seq<seq<NgramValue>>, j: nat, i: nat): NgramValue
  {
    if i < |spans| && j < |spans[i]| then spans[i][j] else NgramValue("", 0, 0)
  }

  /**
   * At token i, the table starts the 1-gram of the token, and continues every n-gram that
   * ended at token i-1 by appending the token.
   */
  ghost predicate GrowsAt(spans: seq<seq<NgramValue>>, tokens: seq<Token>, i: nat)
    requires i < |tokens|
  {
    At(spans, i, i) == NgramValue(tokens[i].token, tokens[i].offset, tokens[i].length) &&
    forall j: nat :: j < i ==> At(spans, j, i) == At(spans, j, i - 1).Appended(tokens[i])
  }

  /** Appending token i to the n-gram of tokens j..i-1 gives the n-gram of tokens j..i. */
  lemma SpanGrows(tokens: seq<Token>, i: nat)
    requires i < |tokens|
    ensures GrowsAt(SpansOf(tokens), tokens, i)
  {
  }

  /**
   * The k-th n-gram gatherNgrams emits on reaching token i: first the 1-gram, then the
   * n-grams ending at i from the longest to the 2-gram.
   */
  function Emission(spans: seq<seq<NgramValue>>, m: nat, i: nat, k: nat): NgramValue
  {
    if k == 0 then At(spans, i, i) else At(spans, Lowest(i, m) + k - 1, i)
  }

  /** The first k n-grams emitted on reaching token i. */
  function Emitted(spans: seq<seq<NgramValue>>, m: nat, i: nat, k: nat): (r: seq<NgramValue>)
    ensures |r| == k
  {
    if k == 0 then [] else Emitted(spans, m, i, k - 1) + [Emission(spans, m, i, k - 1)]
  }

  /** Everything gatherNgrams emits on reaching token i: 1 + i - Lowest(i, m) n-grams. */
  function EndingAt(spans: seq<seq<NgramValue>>, m: nat, i: nat): seq<NgramValue>
  {
    Emitted(spans, m, i, i + 1 - Lowest(i, m))
  }

  /** Everything gatherNgrams emits for the first `count` tokens. */
  function GatherBy(spans: seq<seq<NgramValue>>, m: nat, count: nat): seq<NgramValue>
  {
    if count == 0 then [] else GatherBy(spans, m, count - 1) + EndingAt(spans, m, count - 1)
  }

  /** gatherNgrams' output for the n-grams of at most m tokens. */
  function GatherSpec(tokens: seq<Token>, m: nat): seq<NgramValue>
  {
    GatherBy(SpansOf(tokens), m, |tokens|)
  }

  /** The number of n-grams of at most m tokens among the first n tokens: the sum of min(i + 1, m). */
  function NgramCount(n: nat, m: nat): nat
  {
    if n == 0 then 0 else NgramCount(n - 1, m) + (if n < m then n else m)
  }

  /** Where gatherNgrams emits the n-gram of tokens j..i. */
  function Position(j: nat, i: nat, m: nat): nat
    requires 1 <= m && j <= i && i - j < m
  {
    NgramCount(i, m) + (if j == i then 0 else j - Lowest(i, m) + 1)
  }

  lemma {:induction false} EmittedAt(spans: seq<seq<NgramValue>>, m: nat, i: nat, n: nat, k: nat)
    requires k < n
    ensures Emitted(spans, m, i, n)[k] == Emission(spans, m, i, k)
  {
    if k < n - 1 {
      EmittedAt(spans, m, i, n - 1, k);
    }
  }

  /** gatherNgrams emits min(i + 1, m) n-grams for token i, NgramCount(n, m) for n tokens. */
  lemma {:induction false} GatherByLength(spans: seq<seq<NgramValue>>, m: nat, count: nat)
    requires 1 <= m
    ensures |GatherBy(spans, m, count)| == NgramCount(count, m)
  {
    if count > 0 {
      GatherByLength(spans, m, count - 1);
    }
  }

  /** The n-grams for token i start right after those for tokens 0..i-1. */
  lemma {:induction false} GatherByAt(spans: seq<seq<NgramValue>>, m: nat, count: nat, i: nat, k: nat)
    requires 1 <= m && i < count && k <= i - Lowest(i, m)
    ensures NgramCount(i, m) + k < |GatherBy(spans, m, count)|
    ensures GatherBy(spans, m, count)[NgramCount(i, m) + k] == Emission(spans, m, i, k)
  {
    GatherByLength(spans, m, count);
    GatherByLength(spans, m, count - 1);
    if i == count - 1 {
      EmittedAt(spans, m, i, i + 1 - Lowest(i, m), k);
    } else {
      GatherByAt(spans, m, count - 1, i, k);
    }
  }

  lemma SpansOfAt(tokens: seq<Token>, j: nat, i: nat)
    requires j <= i < |tokens|
    ensures At(SpansOf(tokens), j, i) == Span(tokens, j, i)
  {
  }

  /** The count of n-grams gatherNgrams emits. */
  lemma GatherSpecLength(tokens: seq<Token>, m: nat)
    requires 1 <= m
    ensures |GatherSpec(tokens, m)| == NgramCount(|tokens|, m)
  {
    GatherByLength(SpansOf(tokens), m, |tokens|);
  }

  /** Every run of 1..m consecutive tokens is emitted, at its own position. */
  lemma GatherSpecHasSpan(tokens: seq<Token>, m: nat, j: nat, i: nat)
    requires 1 <= m && j <= i < |tokens| && i - j < m
    ensures Position(j, i, m) < |GatherSpec(tokens, m)|
    ensures GatherSpec(tokens, m)[Position(j, i, m)] == Span(tokens, j, i)
  {
    var k := if j == i then 0 else j - Lowest(i, m) + 1;
    GatherByAt(SpansOf(tokens), m, |tokens|, i, k);
  }

  /** Every emitted n-gram is a run of 1..m consecutive tokens, emitted at that run's position. */
  lemma GatherSpecOnlySpans(tokens: seq<Token>, m: nat, p: nat) returns (j: nat, i: nat)
    requires 1 <= m && p < |GatherSpec(tokens, m)|
    ensures j <= i < |tokens| && i - j < m
    ensures p == Position(j, i, m)
    ensures GatherSpec(tokens, m)[p] == Span(tokens, j, i)
  {
    GatherSpecLength(tokens, m);
    i := 0;
    while NgramCount(i + 1, m) <= p
      invariant i < |tokens| && NgramCount(i, m) <= p
      decreases |tokens| - i
    {
      NgramCountGrows(i + 1, |tokens|, m);
      i := i + 1;
    }
    var k := p - NgramCount(i, m);
    j := if k == 0 then i else Lowest(i, m) + k - 1;
    GatherSpecHasSpan(tokens, m, j, i);
  }

  lemma {:induction false} NgramCountGrows(a: nat, b: nat, m: nat)
    requires a < b && 1 <= m
    ensures NgramCount(a, m) < NgramCount(b, m)
    decreases b - a
  {
    if a + 1 < b {
      NgramCountGrows(a, b - 1, m);
    }
  }

  /** The n-grams ending at token i occupy positions NgramCount(i) up to NgramCount(i + 1). */
  lemma PositionRange(j: nat, i: nat, m: nat)
    requires 1 <= m && j <= i && i - j < m
    ensures NgramCount(i, m) <= Position(j, i, m) < NgramCount(i + 1, m)
  {
  }

  /** Distinct runs of tokens are emitted at distinct positions, so each is emitted exactly once. */
  lemma PositionInjective(j1: nat, i1: nat, j2: nat, i2: nat, m: nat)
    requires 1 <= m && j1 <= i1 && i1 - j1 < m && j2 <= i2 && i2 - j2 < m
    requires Position(j1, i1, m) == Position(j2, i2, m)
    ensures j1 == j2 && i1 == i2
  {
    PositionRange(j1, i1, m);
    PositionRange(j2, i2, m);
    if i1 + 1 < i2 {
      NgramCountGrows(i1 + 1, i2, m);
    } else if i2 + 1 < i1 {
      NgramCountGrows(i2 + 1, i1, m);
    }
  }

  /** The n-gram text is the tokens' texts joined by single spaces. */
  lemma {:induction false} JoinRangeIsJoin(tokens: seq<Token>, j: nat, i: nat)
    requires j <= i < |tokens|
    ensures JoinRange(tokens, j, i) == Join(Texts(tokens[j..i + 1]), " ")
    decreases i
  {
    if j < i {
      JoinRangeIsJoin(tokens, j, i - 1);
      assert Texts(tokens[j..i + 1]) == Texts(tokens[j..i]) + [tokens[i].token];
      JoinSnoc(Texts(tokens[j..i]), tokens[i].token, " ");
    } else {
      assert Texts(tokens[j..i + 1]) == [tokens[i].token];
    }
  }

  /** The slot of the circular buffer that is q places after `start`. */
  function Slot(start: nat, q: nat, m: nat): nat
  {
    if start + q < m then start + q else start + q - m
  }

  /** Once the oldest slot has been refilled, the next slot is the oldest. */
  lemma SlotShift(start: nat, next: nat, m: nat)
    requires start < m && next == (start + 1) % m
    ensures forall q :: 0 <= q < m ==>
      Slot(next, q, m) == if q + 1 < m then Slot(start, q + 1, m) else start
  {
    ModNext(start, m);
  }

  lemma ModNext(j: nat, m: nat)
    requires j < m
    ensures (j + 1) % m == if j + 1 == m then 0 else j + 1
  {
  }

  /** The one-token n-gram of `new Ngram(token)`. */
  function OneGram(t: Token): (r: NgramValue)
    ensures r.ngram == t.token && r.offset == t.offset && r.length == t.length
  {
    NgramValue(t.token, t.offset, t.length)
  }

  /**
   * The inner loop of the first phase: token i is appended to the n-grams in slots 0..i-1,
   * which start at tokens 0..i-1, and each is copied out after it grows.
   */
  method ExtendEarlier(tokens: seq<Token>, m: nat, ngrams: array<NgramValue>, i: nat,
                       ghost spans: seq<seq<NgramValue>>)
      returns (emitted: seq<NgramValue>)
    requires i < |tokens| && i < m == ngrams.Length
    requires GrowsAt(spans, tokens, i) && ngrams[i] == At(spans, i, i)
    requires forall x :: 0 <= x < i ==> ngrams[x] == At(spans, x, i - 1)
    modifies ngrams
    ensures forall x :: 0 <= x <= i ==> ngrams[x] == At(spans, x, i)
    ensures forall x :: i < x < m ==> ngrams[x] == old(ngrams[x])
    ensures emitted == EndingAt(spans, m, i)
  {
    emitted := [ngrams[i]];
    var j := 0;
    while j < i
      invariant 0 <= j <= i
      invariant emitted == Emitted(spans, m, i, j + 1)
      invariant forall x :: 0 <= x < i ==> ngrams[x] == At(spans, x, if x < j then i else i - 1)
      invariant forall x :: i <= x < m ==> ngrams[x] == old(ngrams[x])
    {
      ngrams[j] := ngrams[j].Appended(tokens[i]);
      emitted := emitted + [ngrams[j]];
      j := j + 1;
    }
  }

  /**
   * The first phase of gatherNgrams: while the buffer is not full, each token gets a slot
   * of its own and is appended to every earlier slot.
   */
  method FillWindow(tokens: seq<Token>, m: nat, ghost spans: seq<seq<NgramValue>>)
      returns (ngrams: array<NgramValue>, result: seq<NgramValue>, i: nat)
    requires 1 <= m
    requires forall k :: 0 <= k < |tokens| ==> GrowsAt(spans, tokens, k)
    ensures fresh(ngrams) && ngrams.Length == m
    ensures i == if |tokens| < m then |tokens| else m
    ensures result == GatherBy(spans, m, i)
    ensures forall x :: 0 <= x < i ==> ngrams[x] == At(spans, x, i - 1)
  {
    result := [];
    ngrams := new NgramValue[m](_ => NgramValue("", 0, 0));
    i := 0;
    while i < |tokens| && i < m
      invariant 0 <= i <= |tokens| && i <= m
      invariant result == GatherBy(spans, m, i)
      invariant forall x :: 0 <= x < i ==> ngrams[x] == At(spans, x, i - 1)
    {
      assert GrowsAt(spans, tokens, i);
      ngrams[i] := OneGram(tokens[i]);
      var emitted := ExtendEarlier(tokens, m, ngrams, i, spans);
      result := result + emitted;
      i := i + 1;
    }
  }

  /**
   * The inner loop of the second phase: token i is appended to every slot but `start`,
   * in circular order from the one after `start`, that is from the oldest n-gram to the
   * newest, and each is copied out after it grows.
   */
  method ExtendAround(tokens: seq<Token>, m: nat, ngrams: array<NgramValue>, start: nat, i: nat,
                      ghost spans: seq<seq<NgramValue>>)
      returns (emitted: seq<NgramValue>)
    requires 1 <= m <= i < |tokens| && start < m == ngrams.Length
    requires GrowsAt(spans, tokens, i) && ngrams[start] == At(spans, i, i)
    requires forall q :: 1 <= q < m ==> ngrams[Slot(start, q, m)] == At(spans, Lowest(i, m) + q - 1, i - 1)
    modifies ngrams
    ensures ngrams[start] == At(spans, i, i)
    ensures forall q :: 1 <= q < m ==> ngrams[Slot(start, q, m)] == At(spans, Lowest(i, m) + q - 1, i)
    ensures emitted == EndingAt(spans, m, i)
  {
    emitted := [ngrams[start]];
    ModNext(start, m);
    var j := (start + 1) % m;
    ghost var k := 1;
    while j != start
      invariant 1 <= k <= m && j == Slot(start, k, m)
      invariant emitted == Emitted(spans, m, i, k)
      invariant ngrams[start] == At(spans, i, i)
      invariant forall q :: 1 <= q < m ==>
        ngrams[Slot(start, q, m)] == At(spans, Lowest(i, m) + q - 1, if q < k then i else i - 1)
      decreases m - k
    {
      ngrams[j] := ngrams[j].Appended(tokens[i]);
      emitted := emitted + [ngrams[j]];
      ModNext(j, m);
      j := (j + 1) % m;
      k := k + 1;
    }
  }

  /**
   * The second phase of gatherNgrams: the buffer is full, so each token replaces the oldest
   * slot and is appended to the others.
   */
  method SlideWindow(tokens: seq<Token>, m: nat, ngrams: array<NgramValue>, i0: nat, result0: seq<NgramValue>,
                     ghost spans: seq<seq<NgramValue>>)
      returns (result: seq<NgramValue>)
    requires 1 <= m <= i0 <= |tokens| && ngrams.Length == m
    requires forall k :: 0 <= k < |tokens| ==> GrowsAt(spans, tokens, k)
    requires result0 == GatherBy(spans, m, i0)
    requires forall x :: 0 <= x < m ==> ngrams[x] == At(spans, i0 - m + x, i0 - 1)
    modifies ngrams
    ensures result == GatherBy(spans, m, |tokens|)
  {
    result := result0;
    var i := i0;
    var start := 0;
    assert forall q :: 0 <= q < m ==> Slot(0, q, m) == q;
    while i < |tokens|
      invariant i0 <= i <= |tokens| && 0 <= start < m
      invariant result == GatherBy(spans, m, i)
      invariant forall q :: 0 <= q < m ==> ngrams[Slot(start, q, m)] == At(spans, Lowest(i, m) + q - 1, i - 1)
    {
      assert GrowsAt(spans, tokens, i);
      ngrams[start] := OneGram(tokens[i]);
      var emitted := ExtendAround(tokens, m, ngrams, start, i, spans);
      result := result + emitted;
      SlotShift(start, (start + 1) % m, m);
      start := (start + 1) % m;
      i := i + 1;
    }
  }

  /**
   * gatherNgrams: a circular buffer of maxSize n-grams under construction; each token starts
   * a new n-gram in the oldest slot and is appended to all the others, and every n-gram is
   * copied out as it grows.
   */
  method GatherNgrams(tokens: seq<Token>, maxSize: int) returns (r: Result<seq<NgramValue>>)
    ensures maxSize < 0 ==> r == Err(IllegalArgument)
    ensures maxSize == 0 ==> r == if |tokens| == 0 then Ok([]) else Err(ArrayIndexOutOfBounds)
    ensures maxSize > 0 ==> r == Ok(GatherSpec(tokens, maxSize))
  {
    if maxSize < 0 {
      return Err(IllegalArgument);
    }
    if maxSize == 0 {
      // The first slot access is out of the zero-length buffer's bounds.
      return if |tokens| == 0 then Ok([]) else Err(ArrayIndexOutOfBounds);
    }
    forall k | 0 <= k < |tokens|
      ensures GrowsAt(SpansOf(tokens), tokens, k)
    {
      SpanGrows(tokens, k);
    }
    var ngrams, result, i := FillWindow(tokens, maxSize, SpansOf(tokens));
    if i < |tokens| {
      result := SlideWindow(tokens, maxSize, ngrams, i, result, SpansOf(tokens));
    }
    return Ok(result);
  }

  // ---------------------------------------------------------------------------
  // The keyphraseness tree: a TreeSet of mentions ordered by Mentions.CompareTo, held as
  // its elements in ascending order.

  /** The elements are in strictly ascending CompareTo order, so no two compare equal. */
  predicate Ascending(tree: seq<MentionInfo>)
  {
    forall i, j :: 0 <= i < j < |tree| ==> Less(tree[i], tree[j])
  }

  /** The tree already holds an element that compares equal to m. */
  predicate HasEquivalent(tree: seq<MentionInfo>, m: MentionInfo)
  {
    exists x :: x in tree && CompareTo(x, m) == 0
  }

  /** Less is unaffected by replacing an element with one that compares equal to it. */
  lemma LessUpToEquivalence(a: MentionInfo, b: MentionInfo, c: MentionInfo)
    requires CompareTo(b, c) == 0
    ensures Less(a, b) ==> Less(a, c)
    ensures Less(b, a) ==> Less(c, a)
  {
  }

  /**
   * TreeSet.add: m goes to its place in the order, unless an element comparing equal to it
   * is already there, in which case the tree is unchanged.
   */
  function TreeAdd(tree: seq<MentionInfo>, m: MentionInfo): seq<MentionInfo>
  {
    if |tree| == 0 then [m]
    else if Less(m, tree[0]) then [m] + tree
    else if CompareTo(tree[0], m) == 0 then tree
    else [tree[0]] + TreeAdd(tree[1..], m)
  }

  /** Below the least element of a tree, nothing in the tree compares equal. */
  lemma NoEquivalentAbove(tree: seq<MentionInfo>, m: MentionInfo)
    requires Ascending(tree) && |tree| > 0 && Less(m, tree[0])
    ensures forall x :: x in tree ==> Less(m, x)
    ensures !HasEquivalent(tree, m)
  {
    forall x | x in tree ensures Less(m, x) && CompareTo(x, m) != 0 {
      var i :| 0 <= i < |tree| && tree[i] == x;
      if i > 0 {
        LessStrictOrder(m, tree[0], x);
      }
      LessStrictOrder(m, m, m);
      if CompareTo(x, m) == 0 {
        LessUpToEquivalence(m, x, m);
      }
    }
  }

  /** An element below everything in an ascending tree can go in front of it. */
  lemma AscendingCons(x: MentionInfo, tree: seq<MentionInfo>)
    requires Ascending(tree) && forall y :: y in tree ==> Less(x, y)
    ensures Ascending([x] + tree)
  {
    var r := [x] + tree;
    forall i, j | 0 <= i < j < |r| ensures Less(r[i], r[j]) {
      if i == 0 {
        assert r[j] in tree;
      } else {
        assert r[i] == tree[i - 1] && r[j] == tree[j - 1];
      }
    }
  }

  /**
   * add adds m, exactly when nothing in the tree compares equal to it, and nothing else;
   * afterwards the tree holds m or an element equal to it under CompareTo.
   */
  lemma {:induction false} TreeAddMembers(tree: seq<MentionInfo>, m: MentionInfo)
    requires Ascending(tree)
    ensures HasEquivalent(tree, m) ==> TreeAdd(tree, m) == tree
    ensures |TreeAdd(tree, m)| == |tree| + (if HasEquivalent(tree, m) then 0 else 1)
    ensures forall x :: x in TreeAdd(tree, m) <==> x in tree || (x == m && !HasEquivalent(tree, m))
    ensures HasEquivalent(TreeAdd(tree, m), m)
  {
    var r := TreeAdd(tree, m);
    assert CompareTo(m, m) == 0;
    if |tree| == 0 {
      assert m in r;
    } else if Less(m, tree[0]) {
      NoEquivalentAbove(tree, m);
      assert m in r;
    } else if CompareTo(tree[0], m) == 0 {
      assert tree[0] in tree;
    } else {
      var rest := TreeAdd(tree[1..], m);
      TreeAddMembers(tree[1..], m);
      assert tree == [tree[0]] + tree[1..];
      assert r == [tree[0]] + rest;
      assert HasEquivalent(tree, m) <==> HasEquivalent(tree[1..], m);
      var y :| y in rest && CompareTo(y, m) == 0;
      assert y in r;
    }
  }

  /** add keeps the tree ascending. */
  lemma {:induction false} TreeAddAscending(tree: seq<MentionInfo>, m: MentionInfo)
    requires Ascending(tree)
    ensures Ascending(TreeAdd(tree, m))
  {
    if |tree| == 0 {
    } else if Less(m, tree[0]) {
      NoEquivalentAbove(tree, m);
      AscendingCons(m, tree);
    } else if CompareTo(tree[0], m) != 0 {
      LessTotal(tree[0], m);
      var rest := TreeAdd(tree[1..], m);
      TreeAddAscending(tree[1..], m);
      TreeAddMembers(tree[1..], m);
      forall x | x in rest ensures Less(tree[0], x) {
        if x != m {
          var k :| 0 <= k < |tree[1..]| && tree[1..][k] == x;
          assert tree[k + 1] == x;
        }
      }
      AscendingCons(tree[0], rest);
    }
  }

  /** The first element of a non-empty tree is its least. */
  lemma FirstIsLeast(tree: seq<MentionInfo>, x: MentionInfo)
    requires Ascending(tree) && x in tree
    ensures x == tree[0] || Less(tree[0], x)
  {
  }

  /**
   * rankMention: while the tree holds fewer than toExtract mentions the new one is added;
   * otherwise the least mention is evicted for it, but only when the new mention's
   * keyphraseness is strictly greater. A full tree that is empty has no first element.
   */
  function RankMention(tree: seq<MentionInfo>, m: MentionInfo, toExtract: int): (r: Result<seq<MentionInfo>>)
    requires Ascending(tree)
    ensures r.Err? <==> |tree| == 0 && toExtract <= 0
    ensures r.Err? ==> r.error == NoSuchElement
    ensures r.Ok? ==> Ascending(r.value)
    ensures r.Ok? ==> |r.value| <= if |tree| < toExtract then toExtract else |tree|
    ensures |tree| < toExtract ==> r == Ok(TreeAdd(tree, m))
    ensures r.Ok? && |tree| >= toExtract ==>
      if tree[0].keyphraseness < m.keyphraseness
      then (forall x :: x in r.value <==> x in tree[1..] || (x == m && !HasEquivalent(tree[1..], m)))
      else r.value == tree
  {
    if |tree| < toExtract then
      TreeAddMembers(tree, m);
      TreeAddAscending(tree, m);
      Ok(TreeAdd(tree, m))
    else if |tree| == 0 then Err(NoSuchElement)
    else if tree[0].keyphraseness < m.keyphraseness then
      TreeAddMembers(tree[1..], m);
      TreeAddAscending(tree[1..], m);
      Ok(TreeAdd(tree[1..], m))
    else Ok(tree)
  }

  /** rankByThreshold: the mention is added exactly when its keyphraseness reaches the threshold. */
  function RankByThreshold(tree: seq<MentionInfo>, m: MentionInfo, percent: real): (r: seq<MentionInfo>)
    requires Ascending(tree)
    ensures Ascending(r)
    ensures m.keyphraseness >= percent ==> HasEquivalent(r, m) && forall x :: x in tree ==> x in r
    ensures m.keyphraseness < percent ==> r == tree
    ensures forall x :: x in r ==> x in tree || x == m
  {
    if m.keyphraseness >= percent then
      TreeAddMembers(tree, m);
      TreeAddAscending(tree, m);
      TreeAdd(tree, m)
    else tree
  }

  // ---------------------------------------------------------------------------
  // extractMentions.

  /**
   * The name looked up for an n-gram: one whose " - " makes it unknown to the index is looked
   * up again with every " - " replaced by " " in a single left-to-right pass.
   */
  function LookupName(ngram: string, index: CandidatesIndex): string
  {
    if Contains(ngram, " - ") && ngram !in index then ReplaceAll(ngram, " - ", " ") else ngram
  }

  /**
   * The fallback is a single pass: in "a - - b" the first " - " is replaced, and the " - " that
   * the replacement brings together is not, so the looked-up name still contains one.
   */
  lemma LookupNameSinglePass(index: CandidatesIndex)
    requires "a - - b" !in index
    ensures LookupName("a - - b", index) == "a - b"
    ensures Contains(LookupName("a - - b", index), " - ")
  {
    assert OccursAt("a - - b", " - ", 1);
    assert ReplaceAll("- b", " - ", " ") == "- b" by {
      assert ReplaceAll(" b", " - ", " ") == " b";
      assert ReplaceAll("b", " - ", " ") == "b";
    }
    assert ReplaceAll("a - - b", " - ", " ") == "a" + ReplaceAll(" - - b", " - ", " ");
    assert OccursAt("a - b", " - ", 1);
  }

  /** Whether the n-gram's lookup name is in the index and, when many-candidate names are skipped, not skipped. */
  predicate Admitted(v: NgramValue, index: CandidatesIndex, skipManyCandidates: bool)
  {
    var name := LookupName(v.ngram, index);
    name in index && !(skipManyCandidates && |index[name].candidates| > MAX_CANDIDATES)
  }

  /** The mention made from an admitted n-gram: its lookup name, keyphraseness linked / total, df total. */
  function MentionOf(v: NgramValue, index: CandidatesIndex): (m: MentionInfo)
    requires WellFormed(index) && LookupName(v.ngram, index) in index
    ensures m.ngram in index && m.offset == v.offset && m.length == v.length
    ensures m.keyphraseness * index[m.ngram].totalDocs as real == index[m.ngram].linkedDocs as real
    ensures m.df == index[m.ngram].totalDocs && m.candidates == Empty()
  {
    var name := LookupName(v.ngram, index);
    MentionInfo(name, "", v.offset, v.length,
      index[name].linkedDocs as real / index[name].totalDocs as real, Empty(), 0.0, index[name].totalDocs, "")
  }

  /** A mention as extractMentions makes them: its name is in the index with these statistics. */
  predicate FromIndex(m: MentionInfo, index: CandidatesIndex, skipManyCandidates: bool)
    requires WellFormed(index)
  {
    m.ngram in index && m.df == index[m.ngram].totalDocs &&
    m.keyphraseness == index[m.ngram].linkedDocs as real / index[m.ngram].totalDocs as real &&
    !(skipManyCandidates && |index[m.ngram].candidates| > MAX_CANDIDATES)
  }

  /** The number of mentions to keep: the token count times percent, truncated, and at least 1. */
  function ToExtract(tokenCount: nat, percent: real): (k: int)
    ensures k >= 1
    ensures k > 1 ==> k as real <= tokenCount as real * percent < k as real + 1.0
    ensures tokenCount as real * percent >= 2.0 ==> k > 1
  {
    var scaled := (tokenCount as real * percent).Floor;
    if scaled > 1 then scaled else 1
  }

  /** What one n-gram does to the tree. */
  function Select(tree: seq<MentionInfo>, v: NgramValue, index: CandidatesIndex, toExtract: int,
                  useThreshold: bool, percent: real, skipManyCandidates: bool): seq<MentionInfo>
    requires WellFormed(index) && Ascending(tree) && toExtract >= 1
  {
    if !Admitted(v, index, skipManyCandidates) then tree
    else if useThreshold then RankByThreshold(tree, MentionOf(v, index), percent)
    else RankMention(tree, MentionOf(v, index), toExtract).value
  }

  /** The tree after all n-grams, in order. */
  function SelectAll(ngrams: seq<NgramValue>, index: CandidatesIndex, toExtract: int,
                     useThreshold: bool, percent: real, skipManyCandidates: bool): (r: seq<MentionInfo>)
    requires WellFormed(index) && toExtract >= 1
    ensures Ascending(r)
  {
    if |ngrams| == 0 then []
    else
      Select(SelectAll(ngrams[..|ngrams| - 1], index, toExtract, useThreshold, percent, skipManyCandidates),
        ngrams[|ngrams| - 1], index, toExtract, useThreshold, percent, skipManyCandidates)
  }

  /** One n-gram adds at most its own mention to the tree. */
  lemma SelectMembers(tree: seq<MentionInfo>, v: NgramValue, index: CandidatesIndex, toExtract: int,
                      useThreshold: bool, percent: real, skipManyCandidates: bool)
    requires WellFormed(index) && Ascending(tree) && toExtract >= 1
    ensures forall x :: x in Select(tree, v, index, toExtract, useThreshold, percent, skipManyCandidates) ==>
      x in tree || (Admitted(v, index, skipManyCandidates) && x == MentionOf(v, index))
  {
    if Admitted(v, index, skipManyCandidates) && !useThreshold {
      if |tree| < toExtract {
        TreeAddMembers(tree, MentionOf(v, index));
      } else {
        forall x | x in tree[1..] ensures x in tree {
          var i :| 0 <= i < |tree[1..]| && tree[1..][i] == x;
          assert tree[i + 1] == x;
        }
      }
    }
  }

  /** Every extracted mention is made from an admitted n-gram, with the index's statistics. */
  lemma {:induction false} SelectAllFromIndex(ngrams: seq<NgramValue>, index: CandidatesIndex, toExtract: int,
                                              useThreshold: bool, percent: real, skipManyCandidates: bool)
    requires WellFormed(index) && toExtract >= 1
    ensures forall x :: x in SelectAll(ngrams, index, toExtract, useThreshold, percent, skipManyCandidates) ==>
      FromIndex(x, index, skipManyCandidates) &&
      exists v :: v in ngrams && Admitted(v, index, skipManyCandidates) && x == MentionOf(v, index)
  {
    if |ngrams| > 0 {
      var init := ngrams[..|ngrams| - 1];
      var v := ngrams[|ngrams| - 1];
      assert ngrams == init + [v];
      SelectAllFromIndex(init, index, toExtract, useThreshold, percent, skipManyCandidates);
      var tree := SelectAll(init, index, toExtract, useThreshold, percent, skipManyCandidates);
      var r := Select(tree, v, index, toExtract, useThreshold, percent, skipManyCandidates);
      SelectMembers(tree, v, index, toExtract, useThreshold, percent, skipManyCandidates);
      forall x | x in r
        ensures FromIndex(x, index, skipManyCandidates)
        ensures exists w :: w in ngrams && Admitted(w, index, skipManyCandidates) && x == MentionOf(w, index)
      {
        if x in tree {
          var w :| w in init && Admitted(w, index, skipManyCandidates) && x == MentionOf(w, index);
          assert w in ngrams;
        } else {
          assert v in ngrams;
        }
      }
    }
  }

  /** Without a threshold, extractMentions keeps at most toExtract mentions. */
  lemma {:induction false} SelectAllBounded(ngrams: seq<NgramValue>, index: CandidatesIndex, toExtract: int,
                                            percent: real, skipManyCandidates: bool)
    requires WellFormed(index) && toExtract >= 1
    ensures |SelectAll(ngrams, index, toExtract, false, percent, skipManyCandidates)| <= toExtract
  {
    if |ngrams| > 0 {
      SelectAllBounded(ngrams[..|ngrams| - 1], index, toExtract, percent, skipManyCandidates);
    }
  }

  /**
   * With a threshold, extractMentions keeps exactly the admitted mentions whose keyphraseness
   * reaches it: every kept one does, and every such mention is kept or has a kept equal under
   * CompareTo.
   */
  lemma {:induction false} SelectAllThreshold(ngrams: seq<NgramValue>, index: CandidatesIndex, toExtract: int,
                                              percent: real, skipManyCandidates: bool)
    requires WellFormed(index) && toExtract >= 1
    ensures forall x :: x in SelectAll(ngrams, index, toExtract, true, percent, skipManyCandidates) ==>
      x.keyphraseness >= percent
    ensures forall v :: (v in ngrams && Admitted(v, index, skipManyCandidates) && MentionOf(v, index).keyphraseness >= percent) ==>
      HasEquivalent(SelectAll(ngrams, index, toExtract, true, percent, skipManyCandidates), MentionOf(v, index))
  {
    if |ngrams| > 0 {
      var init := ngrams[..|ngrams| - 1];
      var v := ngrams[|ngrams| - 1];
      assert ngrams == init + [v];
      SelectAllThreshold(init, index, toExtract, percent, skipManyCandidates);
      var tree := SelectAll(init, index, toExtract, true, percent, skipManyCandidates);
      var r := SelectAll(ngrams, index, toExtract, true, percent, skipManyCandidates);
      assert r == Select(tree, v, index, toExtract, true, percent, skipManyCandidates);
      forall w | w in ngrams && Admitted(w, index, skipManyCandidates) && MentionOf(w, index).keyphraseness >= percent
        ensures HasEquivalent(r, MentionOf(w, index))
      {
        if w != v {
          assert w in init;
          var x :| x in tree && CompareTo(x, MentionOf(w, index)) == 0;
          assert x in r;
        }
      }
    }
  }

  // ---------------------------------------------------------------------------
  // computeLocalCompatibilities. The compatibility of a mention with an entity is a cosine
  // of TF-IDF vectors that depends only on the mention's position in the token list; it is
  // the parameter `compat`, taking the mention's offset and the entity.

  /** The candidates after setting the score of each entity in turn. */
  function ScoreAll(c: OrderedMap<int, real>, entities: seq<int>, offset: int, compat: (int, int) -> real): (r: OrderedMap<int, real>)
    requires c.Valid()
    ensures r.Valid()
    ensures forall e :: e in entities ==> e in r.values && r.values[e] == compat(offset, e)
    ensures forall e :: e !in entities ==> (e in r.values <==> e in c.values) && (e in c.values ==> r.values[e] == c.values[e])
  {
    if |entities| == 0 then c
    else
      var init, last := entities[..|entities| - 1], entities[|entities| - 1];
      var prev := ScoreAll(c, init, offset, compat);
      PutValid(prev, last, compat(offset, last));
      assert forall e :: e in entities <==> e in init || e == last by {
        assert entities == init + [last];
      }
      prev.Put(last, compat(offset, last))
  }

  /** computeLocalCompatibilities' loop over one mention's candidate entities. */
  method ScoreEach(c: OrderedMap<int, real>, entities: seq<int>, offset: int, compat: (int, int) -> real)
    returns (scores: OrderedMap<int, real>)
    requires c.Valid()
    ensures scores == ScoreAll(c, entities, offset, compat)
  {
    scores := c;
    for j := 0 to |entities|
      invariant scores == ScoreAll(c, entities[..j], offset, compat)
    {
      assert entities[..j + 1][..j] == entities[..j];
      scores := scores.Put(entities[j], compat(offset, entities[j]));
    }
    assert entities[..|entities|] == entities;
  }

  /** One pass of computeLocalCompatibilities' loop: mention k scored and kept or dropped, or the null dereference that ends the loop. */
  method CompatibilityStep(mentions: seq<MentionInfo>, index: CandidatesIndex, compat: (int, int) -> real, skipZero: bool,
                           k: nat, result: seq<MentionInfo>)
    returns (r: Result<seq<MentionInfo>>)
    requires k < |mentions| && forall m :: m in mentions ==> m.candidates.Valid()
    requires LocalCompatibilities(mentions[..k], index, compat, skipZero) == Ok(result)
    ensures r.Ok? ==> LocalCompatibilities(mentions[..k + 1], index, compat, skipZero) == r
    ensures r.Err? ==> LocalCompatibilities(mentions, index, compat, skipZero) == r
  {
    assert mentions[..k + 1][..k] == mentions[..k];
    var m := mentions[k];
    assert mentions[..k + 1][k] == m;
    if m.ngram !in index {
      assert m in mentions;
      return Err(NullPointer);
    }
    var scores := ScoreEach(m.candidates, index[m.ngram].candidates, m.offset, compat);
    var sum := Sum(scores.ValuesInOrder());
    if skipZero && sum == 0.0 {
      return Ok(result);
    }
    return Ok(result + [m.(candidates := scores)]);
  }

  /** A mention after computeLocalCompatibilities has scored each of its candidate entities. */
  function Scored(m: MentionInfo, index: CandidatesIndex, compat: (int, int) -> real): MentionInfo
    requires m.ngram in index && m.candidates.Valid()
  {
    m.(candidates := ScoreAll(m.candidates, index[m.ngram].candidates, m.offset, compat))
  }

  /**
   * The mentions computeLocalCompatibilities returns: each scored, in order, with those whose
   * scores sum to zero dropped when skipZero is set. A mention whose name is not in the index
   * has no candidate set to score: a null dereference.
   */
  function LocalCompatibilities(mentions: seq<MentionInfo>, index: CandidatesIndex, compat: (int, int) -> real,
                                skipZero: bool): (r: Result<seq<MentionInfo>>)
    requires forall m :: m in mentions ==> m.candidates.Valid()
    ensures r.Err? <==> exists m :: m in mentions && m.ngram !in index
    ensures r.Err? ==> r.error == NullPointer
    ensures r.Ok? ==> |r.value| <= |mentions| && (!skipZero ==> |r.value| == |mentions|)
    ensures r.Ok? ==> forall x :: x in r.value ==> exists m :: m in mentions && m.ngram in index && x == Scored(m, index, compat)
    ensures r.Ok? ==> forall x :: x in r.value ==> (x.candidates.Valid() && x.ngram in index &&
      forall e :: e in index[x.ngram].candidates ==> e in x.candidates.values && x.candidates.values[e] == compat(x.offset, e))
    ensures r.Ok? && skipZero ==> forall x :: x in r.value ==> SumScores(x.candidates) != 0.0
    ensures r.Ok? && !skipZero ==> forall i :: 0 <= i < |mentions| ==> r.value[i] == Scored(mentions[i], index, compat)
  {
    if |mentions| == 0 then Ok([])
    else
      var init := mentions[..|mentions| - 1];
      var m := mentions[|mentions| - 1];
      assert mentions == init + [m];
      assert forall x :: x in mentions <==> x in init || x == m;
      match LocalCompatibilities(init, index, compat, skipZero)
      case Err(e) => Err(e)
      case Ok(prev) =>
        if m.ngram !in index then Err(NullPointer)
        else
          var s := Scored(m, index, compat);
          if skipZero && SumScores(s.candidates) == 0.0 then Ok(prev) else Ok(prev + [s])
  }

  // ---------------------------------------------------------------------------
  // getTFContext.

  /** The counts of a frequency map, summed over its keys in order. */
  function CountTotal(keys: seq<string>, counts: map<string, int>): int
    requires forall k :: k in keys ==> k in counts
  {
    if |keys| == 0 then 0
    else CountTotal(keys[..|keys| - 1], counts) + counts[keys[|keys| - 1]]
  }

  /** Each word of the context mapped to its number of occurrences, in first-occurrence order. */
  function TermFrequencies(context: seq<string>): (r: OrderedMap<string, int>)
    ensures r.Valid()
    ensures forall w :: w in r.values <==> w in context
    ensures forall w :: w in r.values ==> r.values[w] == multiset(context)[w]
  {
    if |context| == 0 then Empty()
    else
      var init := context[..|context| - 1];
      var w := context[|context| - 1];
      assert context == init + [w];
      var prev := TermFrequencies(init);
      PutValid(prev, w, prev.GetOrDefault(w, 0) + 1);
      prev.Put(w, prev.GetOrDefault(w, 0) + 1)
  }

  /** Counts that agree on the keys give the same total. */
  lemma {:induction false} CountTotalFrame(keys: seq<string>, a: map<string, int>, b: map<string, int>)
    requires forall k :: k in keys ==> k in a && k in b && a[k] == b[k]
    ensures CountTotal(keys, a) == CountTotal(keys, b)
  {
    if |keys| > 0 {
      CountTotalFrame(keys[..|keys| - 1], a, b);
    }
  }

  /** Adding one to the count of a key listed once adds one to the total. */
  lemma {:induction false} CountTotalBump(keys: seq<string>, counts: map<string, int>, w: string)
    requires forall k :: k in keys ==> k in counts
    requires forall i, j :: 0 <= i < j < |keys| ==> keys[i] != keys[j]
    requires w in keys
    ensures CountTotal(keys, counts[w := counts[w] + 1]) == CountTotal(keys, counts) + 1
  {
    var init := keys[..|keys| - 1];
    if keys[|keys| - 1] == w {
      forall i | 0 <= i < |init| ensures init[i] != w {
        assert keys[i] != keys[|keys| - 1];
      }
      CountTotalFrame(init, counts, counts[w := counts[w] + 1]);
    } else {
      assert w in init by {
        var i :| 0 <= i < |keys| && keys[i] == w;
        assert init[i] == w;
      }
      CountTotalBump(init, counts, w);
    }
  }

  /** The counts sum to the context's length. */
  lemma {:induction false} TermFrequenciesTotal(context: seq<string>)
    ensures CountTotal(TermFrequencies(context).keys, TermFrequencies(context).values) == |context|
  {
    if |context| > 0 {
      var init := context[..|context| - 1];
      var w := context[|context| - 1];
      var prev := TermFrequencies(init);
      TermFrequenciesTotal(init);
      if w in prev.values {
        CountTotalBump(prev.keys, prev.values, w);
      } else {
        CountTotalFrame(prev.keys, prev.values, prev.values[w := 1]);
      }
    }
  }

  // ---------------------------------------------------------------------------
  // The detector.

  /** The mention detector of one document, over a name index. */
  class MentionDetection {
    var text: string
    var mentionIndex: CandidatesIndex
    /** The share of the tokens kept as mentions, or the keyphraseness threshold. */
    var percent: real
    var useThreshold: bool
    var skipZeroLocalCompatibility: bool

    /** MentionDetection(text, mentionIndex, ...): top 6% by keyphraseness, zero-score mentions kept. */
    constructor (text: string, mentionIndex: CandidatesIndex)
      ensures this.text == text && this.mentionIndex == mentionIndex
      ensures percent == 0.06 && !useThreshold && !skipZeroLocalCompatibility
    {
      this.text := text;
      this.mentionIndex := mentionIndex;
      percent := 0.06;
      useThreshold := false;
      skipZeroLocalCompatibility := false;
    }

    method SetSkipZeroLocalCompatibility()
      modifies this
      ensures skipZeroLocalCompatibility
      ensures text == old(text) && mentionIndex == old(mentionIndex) && percent == old(percent)
      ensures useThreshold == old(useThreshold)
    {
      skipZeroLocalCompatibility := true;
    }

    /** setThreshold: value becomes the share to keep, or the threshold when useThreshold is set. */
    method SetThreshold(value: real, useThreshold: bool)
      modifies this
      ensures this.useThreshold == useThreshold && percent == value
      ensures text == old(text) && mentionIndex == old(mentionIndex)
      ensures skipZeroLocalCompatibility == old(skipZeroLocalCompatibility)
    {
      this.useThreshold := useThreshold;
      percent := value;
    }

    /** One pass of extractMentions' loop: the n-gram, if admitted, becomes a mention ranked into the tree. */
    method RankNgram(tree: seq<MentionInfo>, v: NgramValue, toExtract: int, skipManyCandidates: bool)
      returns (r: seq<MentionInfo>)
      requires WellFormed(mentionIndex) && Ascending(tree) && toExtract >= 1
      ensures r == Select(tree, v, mentionIndex, toExtract, useThreshold, percent, skipManyCandidates)
    {
      var name := v.ngram;
      if Contains(name, " - ") && name !in mentionIndex {
        name := ReplaceAll(name, " - ", " ");
      }
      r := tree;
      if name in mentionIndex && !(skipManyCandidates && |mentionIndex[name].candidates| > MAX_CANDIDATES) {
        var mention := new Mention.FromNgram(NgramValue(name, v.offset, v.length));
        var found := mention.ComputeKeyphrasenessAndDF(mentionIndex);
        assert mention.Info() == MentionOf(v, mentionIndex);
        if useThreshold {
          r := RankByThreshold(tree, mention.Info(), percent);
        } else {
          r := RankMention(tree, mention.Info(), toExtract).value;
        }
      }
    }

    /**
     * extractMentions: each n-gram found in the index (after the " - " fallback) becomes a
     * mention ranked into the keyphraseness tree; the tree's mentions are returned in order.
     * skipManyCandidates is the class-wide switch that skips names with too many candidates.
     */
    method ExtractMentions(ngrams: seq<NgramValue>, tokens: seq<Token>, skipManyCandidates: bool)
      returns (mentions: seq<MentionInfo>)
      requires WellFormed(mentionIndex)
      ensures mentions == SelectAll(ngrams, mentionIndex, ToExtract(|tokens|, percent), useThreshold, percent, skipManyCandidates)
    {
      var toExtract := ToExtract(|tokens|, percent);
      mentions := [];
      var k := 0;
      while k < |ngrams|
        invariant 0 <= k <= |ngrams|
        invariant mentions == SelectAll(ngrams[..k], mentionIndex, toExtract, useThreshold, percent, skipManyCandidates)
      {
        assert ngrams[..k + 1][..k] == ngrams[..k];
        mentions := RankNgram(mentions, ngrams[k], toExtract, skipManyCandidates);
        k := k + 1;
      }
      assert ngrams[..k] == ngrams;
    }

    /**
     * computeLocalCompatibilities: every candidate of every mention gets its compatibility
     * score; with skipZeroLocalCompatibility, mentions whose scores sum to zero are dropped.
     */
    method ComputeLocalCompatibilities(mentions: seq<MentionInfo>, compat: (int, int) -> real)
      returns (r: Result<seq<MentionInfo>>)
      requires forall m :: m in mentions ==> m.candidates.Valid()
      ensures r == LocalCompatibilities(mentions, mentionIndex, compat, skipZeroLocalCompatibility)
    {
      var result: seq<MentionInfo> := [];
      for k := 0 to |mentions|
        invariant LocalCompatibilities(mentions[..k], mentionIndex, compat, skipZeroLocalCompatibility) == Ok(result)
      {
        var next := CompatibilityStep(mentions, mentionIndex, compat, skipZeroLocalCompatibility, k, result);
        if next.Err? {
          return next;
        }
        result := next.value;
      }
      assert mentions[..|mentions|] == mentions;
      r := Ok(result);
    }

    /** getTFContext: each word of the context mapped to its number of occurrences. */
    method GetTFContext(context: seq<string>) returns (tf: OrderedMap<string, int>)
      ensures tf == TermFrequencies(context)
    {
      tf := Empty();
      var k := 0;
      while k < |context|
        invariant 0 <= k <= |context|
        invariant tf == TermFrequencies(context[..k])
      {
        assert context[..k + 1][..k] == context[..k];
        var word := context[k];
        if word in tf.values {
          tf := tf.Put(word, tf.values[word] + 1);
        } else {
          tf := tf.Put(word, 1);
        }
        k := k + 1;
      }
      assert context[..k] == context;
    }
  }

  /**
   * countOccurences: the first occurrence is counted, then the cursor jumps past the end of the
   * text, so the count is 1 when the needle occurs and 0 otherwise.
   */
  method CountOccurences(substring: string, text: string) returns (result: int)
    requires |substring| > 0
    requires |text| - |substring| + |text| <= INT_MAX
    ensures result == if Contains(text, substring) then 1 else 0
  {
    result := 0;
    var pos := IndexOfFrom(text, substring, 0);
    while pos != -1
      invariant 0 <= result <= 1
      invariant result == 0 ==> pos == IndexOfFrom(text, substring, 0)
      invariant result == 1 ==> pos == -1 && Contains(text, substring)
      decreases 1 - result
    {
      assert OccursAt(text, substring, pos);
      result := result + 1;
      pos := pos + |text|;
      pos := IndexOfFrom(text, substring, pos);
    }
  }
}
