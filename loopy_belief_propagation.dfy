/**
 * Loopy belief propagation over the mentions of a document. Every sweep computes, for each
 * ordered pair of distinct mentions (from, to) and each candidate of `to`, the best message
 * score over the candidates of `from`, and subtracts from the pair's messages the smallest of
 * them. Sweeps stop after `iterations`, or from the second one on as soon as no final score
 * moved by EPS or more; the solution is then read from the last sweep's messages.
 */
module LoopyBeliefPropagations {
  import opened Wrappers
  import opened JavaLang
  import opened OrderedMaps
  import opened Mentions
  import opened ArgMaxes
  import opened MessagesMaps
  import opened ScorerBasics
  import opened Annotations

  /** Sweeps stop once the largest change of a final score is below this. */
  const EPS: real := 0.00001

  // ---------------------------------------------------------------------------
  // One message: the best score over the sender's candidates.

  /** The loop over from's first k candidates for one receiver candidate: the best (entityFrom, score) so far. */
  function BestUpTo(s: Scoring, state: MessagesState, from: MentionInfo, to: MentionInfo, entityTo: int, k: nat)
    : Result<(int, real)>
    requires k <= |from.candidates.keys|
  {
    if k == 0 then Ok((-1, 0.0))
    else
      match BestUpTo(s, state, from, to, entityTo, k - 1)
      case Err(x) => Err(x)
      case Ok(best) =>
        var entityFrom := from.candidates.keys[k - 1];
        match MessageScoreOf(s, state, from, to, entityFrom, entityTo)
        case Err(x) => Err(x)
        case Ok(score) => Ok(Step(best, entityFrom, score, true))
  }

  /** The message score of each sender candidate, for one receiver candidate. */
  function MessageFn(s: Scoring, state: MessagesState, from: MentionInfo, to: MentionInfo, entityTo: int): int -> real
  {
    entityFrom => Value(MessageScoreOf(s, state, from, to, entityFrom, entityTo))
  }

  /** The unnormalised message (from, to, entityTo): the best score, 0 when from has no candidates. */
  function BestMessage(s: Scoring, state: MessagesState, from: MentionInfo, to: MentionInfo, entityTo: int): Result<real>
  {
    match BestUpTo(s, state, from, to, entityTo, |from.candidates.keys|)
    case Err(x) => Err(x)
    case Ok(best) => Ok(best.1)
  }

  // ---------------------------------------------------------------------------
  // One batch: the messages from one mention to the candidates of another.

  /** The unnormalised messages to to's first k candidates, in order. */
  function MaximaUpTo(s: Scoring, state: MessagesState, from: MentionInfo, to: MentionInfo, k: nat): (r: Result<seq<real>>)
    requires k <= |to.candidates.keys|
    ensures r.Ok? ==> |r.value| == k
  {
    if k == 0 then Ok([])
    else
      match MaximaUpTo(s, state, from, to, k - 1)
      case Err(x) => Err(x)
      case Ok(xs) =>
        match BestMessage(s, state, from, to, to.candidates.keys[k - 1])
        case Err(x) => Err(x)
        case Ok(b) => Ok(xs + [b])
  }

  function Maxima(s: Scoring, state: MessagesState, from: MentionInfo, to: MentionInfo): (r: Result<seq<real>>)
    ensures r.Ok? ==> |r.value| == |to.candidates.keys|
  {
    MaximaUpTo(s, state, from, to, |to.candidates.keys|)
  }

  /** The normalising constant: the first value, replaced by each strictly smaller one; 0 for none. */
  function Normaliser(xs: seq<real>): real
  {
    if |xs| == 0 then 0.0
    else
      var c := Normaliser(xs[..|xs| - 1]);
      var x := xs[|xs| - 1];
      if |xs| == 1 || c > x then x else c
  }

  /** The messages from f to t for the entities es. */
  function Msgs(f: MentionKey, t: MentionKey, es: seq<int>): set<Message>
  {
    set e | e in es :: Message(f, t, e)
  }

  /** The first pass of a batch: message (f, t, es[j]) := xs[j] for j < n, in order. */
  function PutRaw(m: map<Message, real>, f: MentionKey, t: MentionKey, es: seq<int>, xs: seq<real>, n: nat)
    : (r: map<Message, real>)
    requires n <= |es| && n <= |xs|
    ensures r.Keys == m.Keys + Msgs(f, t, es[..n])
  {
    if n == 0 then m
    else
      assert es[..n] == es[..n - 1] + [es[n - 1]];
      PutRaw(m, f, t, es, xs, n - 1)[Message(f, t, es[n - 1]) := xs[n - 1]]
  }

  /** The second pass: each message (f, t, es[j]), j < n, read back and lowered by c. */
  function Normalise(m: map<Message, real>, f: MentionKey, t: MentionKey, es: seq<int>, c: real, n: nat)
    : (r: map<Message, real>)
    requires n <= |es| && Msgs(f, t, es[..n]) <= m.Keys
    ensures r.Keys == m.Keys
  {
    if n == 0 then m
    else
      assert es[..n] == es[..n - 1] + [es[n - 1]];
      var p := Normalise(m, f, t, es, c, n - 1);
      var msg := Message(f, t, es[n - 1]);
      p[msg := p[msg] - c]
  }

  /** A (from, to) batch on top of acc: the maxima put, then lowered by their normalising constant. */
  function Batch(acc: map<Message, real>, f: MentionKey, t: MentionKey, es: seq<int>, xs: seq<real>): (r: map<Message, real>)
    requires |xs| == |es|
    ensures r.Keys == acc.Keys + Msgs(f, t, es)
  {
    assert es[..|es|] == es;
    Normalise(PutRaw(acc, f, t, es, xs, |es|), f, t, es, Normaliser(xs), |es|)
  }

  // ---------------------------------------------------------------------------
  // A sweep.

  /** One (from, to) step of a sweep: nothing for the same mention, else the batch of from's messages to to. */
  function SweepPair(s: Scoring, state: MessagesState, from: MentionInfo, to: MentionInfo, acc: map<Message, real>)
    : Result<map<Message, real>>
  {
    if KeyOf(from) == KeyOf(to) then Ok(acc)
    else
      match Maxima(s, state, from, to)
      case Err(x) => Err(x)
      case Ok(xs) => Ok(Batch(acc, KeyOf(from), KeyOf(to), to.candidates.keys, xs))
  }

  /** The loop over the receivers mentions[..j] for one sender. */
  function SweepRow(s: Scoring, state: MessagesState, mentions: seq<MentionInfo>, from: MentionInfo, j: nat,
                    acc: map<Message, real>): Result<map<Message, real>>
    requires j <= |mentions|
  {
    if j == 0 then Ok(acc)
    else
      match SweepRow(s, state, mentions, from, j - 1, acc)
      case Err(x) => Err(x)
      case Ok(m) => SweepPair(s, state, from, mentions[j - 1], m)
  }

  /** The loop over the senders mentions[..i], starting from an empty messages map. */
  function SweepUpTo(s: Scoring, state: MessagesState, mentions: seq<MentionInfo>, i: nat): Result<map<Message, real>>
    requires i <= |mentions|
  {
    if i == 0 then Ok(map[])
    else
      match SweepUpTo(s, state, mentions, i - 1)
      case Err(x) => Err(x)
      case Ok(m) => SweepRow(s, state, mentions, mentions[i - 1], |mentions|, m)
  }

  /** The new messages one sweep computes from the old messages M. */
  function Sweep(s: Scoring, mentions: seq<MentionInfo>, M: map<Message, real>): Result<map<Message, real>>
  {
    SweepUpTo(s, Some((M, map[])), mentions, |mentions|)
  }

  // ---------------------------------------------------------------------------
  // The initial messages.

  function Zeros(n: nat): (r: seq<real>)
    ensures |r| == n && forall j :: 0 <= j < n ==> r[j] == 0.0
  {
    seq(n, _ => 0.0)
  }

  /** initializeMessages' loop over the receivers mentions[..j] for one sender. */
  function InitRow(mentions: seq<MentionInfo>, from: MentionInfo, j: nat, acc: map<Message, real>): map<Message, real>
    requires j <= |mentions|
  {
    if j == 0 then acc
    else
      var m := InitRow(mentions, from, j - 1, acc);
      var to := mentions[j - 1];
      if KeyOf(from) == KeyOf(to) then m
      else PutRaw(m, KeyOf(from), KeyOf(to), to.candidates.keys, Zeros(|to.candidates.keys|), |to.candidates.keys|)
  }

  /** initializeMessages' loop over the senders mentions[..i]. */
  function InitUpTo(mentions: seq<MentionInfo>, i: nat): map<Message, real>
    requires i <= |mentions|
  {
    if i == 0 then map[] else InitRow(mentions, mentions[i - 1], |mentions|, InitUpTo(mentions, i - 1))
  }

  function InitMessages(mentions: seq<MentionInfo>): map<Message, real>
  {
    InitUpTo(mentions, |mentions|)
  }

  // ---------------------------------------------------------------------------
  // The messages a sweep writes.

  /** The messages from `from` to the mentions[..j] other than itself. */
  function RowKeys(mentions: seq<MentionInfo>, from: MentionInfo, j: nat): set<Message>
    requires j <= |mentions|
  {
    if j == 0 then {}
    else
      var to := mentions[j - 1];
      RowKeys(mentions, from, j - 1) + (if KeyOf(from) == KeyOf(to) then {} else Msgs(KeyOf(from), KeyOf(to), to.candidates.keys))
  }

  /** The messages from mentions[..i] to every other mention. */
  function AllKeys(mentions: seq<MentionInfo>, i: nat): set<Message>
    requires i <= |mentions|
  {
    if i == 0 then {} else AllKeys(mentions, i - 1) + RowKeys(mentions, mentions[i - 1], |mentions|)
  }

  /** A message from mention a to a candidate of mention b, for two mentions that are not equal. */
  ghost predicate IsSlot(mentions: seq<MentionInfo>, msg: Message)
  {
    exists a, b :: 0 <= a < |mentions| && 0 <= b < |mentions| && KeyOf(mentions[a]) != KeyOf(mentions[b]) &&
      msg.from == KeyOf(mentions[a]) && msg.to == KeyOf(mentions[b]) && msg.entity in mentions[b].candidates.keys
  }

  /** Messages that hold every slot. */
  ghost predicate Complete(mentions: seq<MentionInfo>, messages: map<Message, real>)
  {
    AllKeys(mentions, |mentions|) <= messages.Keys
  }

  // ---------------------------------------------------------------------------
  // Properties of one message and one batch.

  /** The message loop fails exactly when a message score does, and otherwise keeps the first best score. */
  lemma {:induction false} BestUpToBest(s: Scoring, state: MessagesState, from: MentionInfo, to: MentionInfo, entityTo: int, k: nat)
    requires k <= |from.candidates.keys|
    ensures BestUpTo(s, state, from, to, entityTo, k).Ok? <==>
      forall q :: 0 <= q < k ==> MessageScoreOf(s, state, from, to, from.candidates.keys[q], entityTo).Ok?
    ensures BestUpTo(s, state, from, to, entityTo, k).Ok? ==>
      BestUpTo(s, state, from, to, entityTo, k).value ==
        Best(from.candidates.keys[..k], MessageFn(s, state, from, to, entityTo), (-1, 0.0), true)
  {
    if k > 0 {
      BestUpToBest(s, state, from, to, entityTo, k - 1);
      var keys := from.candidates.keys;
      assert keys[..k][..k - 1] == keys[..k - 1];
    }
  }

  /**
   * A new message is defined exactly when every message score of the sender's candidates is,
   * and is then the greatest of them, or 0 when the sender has no candidates (candidate -1 aside).
   */
  lemma BestMessageIsMaximum(s: Scoring, state: MessagesState, from: MentionInfo, to: MentionInfo, entityTo: int)
    requires -1 !in from.candidates.keys
    ensures BestMessage(s, state, from, to, entityTo).Ok? <==>
      forall q :: 0 <= q < |from.candidates.keys| ==> MessageScoreOf(s, state, from, to, from.candidates.keys[q], entityTo).Ok?
    ensures BestMessage(s, state, from, to, entityTo).Ok? && |from.candidates.keys| == 0 ==>
      BestMessage(s, state, from, to, entityTo).value == 0.0
    ensures BestMessage(s, state, from, to, entityTo).Ok? && |from.candidates.keys| > 0 ==>
      exists p :: FirstMaxAt(from.candidates.keys, MessageFn(s, state, from, to, entityTo), p) &&
        BestMessage(s, state, from, to, entityTo).value == MessageFn(s, state, from, to, entityTo)(from.candidates.keys[p])
  {
    var keys := from.candidates.keys;
    BestUpToBest(s, state, from, to, entityTo, |keys|);
    assert keys[..|keys|] == keys;
    BestFirstWins(keys, MessageFn(s, state, from, to, entityTo), (-1, 0.0));
  }

  /** The batch loop fails exactly when one of its messages does, and otherwise lists them in order. */
  lemma {:induction false} MaximaUpToDefined(s: Scoring, state: MessagesState, from: MentionInfo, to: MentionInfo, k: nat)
    requires k <= |to.candidates.keys|
    ensures MaximaUpTo(s, state, from, to, k).Ok? <==>
      forall q :: 0 <= q < k ==> BestMessage(s, state, from, to, to.candidates.keys[q]).Ok?
    ensures MaximaUpTo(s, state, from, to, k).Ok? ==>
      forall q :: 0 <= q < k ==> MaximaUpTo(s, state, from, to, k).value[q] == BestMessage(s, state, from, to, to.candidates.keys[q]).value
  {
    if k > 0 {
      MaximaUpToDefined(s, state, from, to, k - 1);
    }
  }

  /** The normalising constant of a non-empty batch is its minimum. */
  lemma {:induction false} NormaliserIsMinimum(xs: seq<real>)
    requires |xs| > 0
    ensures exists j :: 0 <= j < |xs| && Normaliser(xs) == xs[j]
    ensures forall j :: 0 <= j < |xs| ==> Normaliser(xs) <= xs[j]
  {
    if |xs| == 1 {
      assert Normaliser(xs) == xs[0];
    } else {
      var init := xs[..|xs| - 1];
      NormaliserIsMinimum(init);
      var j :| 0 <= j < |init| && Normaliser(init) == init[j];
      if Normaliser(init) > xs[|xs| - 1] {
        assert Normaliser(xs) == xs[|xs| - 1];
      } else {
        assert Normaliser(xs) == xs[j];
      }
      forall q | 0 <= q < |xs| - 1 ensures Normaliser(xs) <= xs[q] {
        assert xs[q] == init[q];
      }
    }
  }

  /** No entity occurs twice, as in the key order of a map. */
  predicate Distinct(es: seq<int>)
  {
    forall i, j :: 0 <= i < j < |es| ==> es[i] != es[j]
  }

  lemma MsgsMember(f: MentionKey, t: MentionKey, es: seq<int>, n: nat, j: nat)
    requires Distinct(es) && j < |es| && n <= |es|
    ensures Message(f, t, es[j]) in Msgs(f, t, es[..n]) <==> j < n
  {
    if j < n {
      assert es[..n][j] == es[j];
    }
  }

  /** The first pass writes each maximum under its message and leaves every other entry alone. */
  lemma {:induction false} PutRawAt(m: map<Message, real>, f: MentionKey, t: MentionKey, es: seq<int>, xs: seq<real>, n: nat)
    requires n <= |es| && n <= |xs| && Distinct(es)
    ensures forall j :: 0 <= j < n ==> PutRaw(m, f, t, es, xs, n)[Message(f, t, es[j])] == xs[j]
    ensures forall msg :: msg in m && msg !in Msgs(f, t, es[..n]) ==> PutRaw(m, f, t, es, xs, n)[msg] == m[msg]
  {
    if n > 0 {
      PutRawAt(m, f, t, es, xs, n - 1);
      assert es[..n] == es[..n - 1] + [es[n - 1]];
      forall j | 0 <= j < n - 1 ensures Message(f, t, es[j]) in Msgs(f, t, es[..n - 1]) {
        MsgsMember(f, t, es, n - 1, j);
      }
    }
  }

  /** The second pass lowers each message of the batch by c and leaves every other entry alone. */
  lemma {:induction false} NormaliseAt(m: map<Message, real>, f: MentionKey, t: MentionKey, es: seq<int>, c: real, n: nat)
    requires n <= |es| && Msgs(f, t, es[..n]) <= m.Keys && Distinct(es)
    ensures forall j :: 0 <= j < n ==> Normalise(m, f, t, es, c, n)[Message(f, t, es[j])] == m[Message(f, t, es[j])] - c
    ensures forall msg :: msg in m && msg !in Msgs(f, t, es[..n]) ==> Normalise(m, f, t, es, c, n)[msg] == m[msg]
  {
    if n > 0 {
      assert es[..n] == es[..n - 1] + [es[n - 1]];
      NormaliseAt(m, f, t, es, c, n - 1);
      MsgsMember(f, t, es, n - 1, n - 1);
      forall j | 0 <= j < n - 1 ensures Message(f, t, es[j]) in Msgs(f, t, es[..n - 1]) {
        MsgsMember(f, t, es, n - 1, j);
      }
    }
  }

  /**
   * A batch adds exactly the messages from f to t, each holding its maximum minus the
   * normalising constant, and leaves every other message alone.
   */
  lemma BatchValues(acc: map<Message, real>, f: MentionKey, t: MentionKey, es: seq<int>, xs: seq<real>)
    requires |xs| == |es| && Distinct(es)
    ensures Batch(acc, f, t, es, xs).Keys == acc.Keys + Msgs(f, t, es)
    ensures forall j :: 0 <= j < |es| ==> Batch(acc, f, t, es, xs)[Message(f, t, es[j])] == xs[j] - Normaliser(xs)
    ensures forall msg :: msg in acc && msg !in Msgs(f, t, es) ==> Batch(acc, f, t, es, xs)[msg] == acc[msg]
  {
    assert es[..|es|] == es;
    PutRawAt(acc, f, t, es, xs, |es|);
    NormaliseAt(PutRaw(acc, f, t, es, xs, |es|), f, t, es, Normaliser(xs), |es|);
  }

  /** After normalisation every message of a batch is at least 0, and one of them is exactly 0. */
  lemma BatchNormalised(acc: map<Message, real>, f: MentionKey, t: MentionKey, es: seq<int>, xs: seq<real>)
    requires |xs| == |es| && Distinct(es)
    ensures forall j :: 0 <= j < |es| ==> Batch(acc, f, t, es, xs)[Message(f, t, es[j])] >= 0.0
    ensures |es| > 0 ==> exists j :: 0 <= j < |es| && Batch(acc, f, t, es, xs)[Message(f, t, es[j])] == 0.0
  {
    BatchValues(acc, f, t, es, xs);
    if |es| > 0 {
      NormaliserIsMinimum(xs);
    }
  }

  // ---------------------------------------------------------------------------
  // The messages of a sweep and of the initial map are exactly the slots.

  lemma MsgsIn(f: MentionKey, t: MentionKey, es: seq<int>, msg: Message)
    ensures msg in Msgs(f, t, es) <==> msg.from == f && msg.to == t && msg.entity in es
  {
    if msg.from == f && msg.to == t && msg.entity in es {
      assert msg == Message(f, t, msg.entity);
    }
  }

  /** A message of a sender's row goes to a candidate of some other receiver among the first j. */
  lemma {:induction false} RowKeysMember(mentions: seq<MentionInfo>, from: MentionInfo, j: nat, msg: Message)
    requires j <= |mentions|
    ensures msg in RowKeys(mentions, from, j) <==>
      exists b :: (0 <= b < j && KeyOf(from) != KeyOf(mentions[b]) &&
        msg.from == KeyOf(from) && msg.to == KeyOf(mentions[b]) && msg.entity in mentions[b].candidates.keys)
  {
    if j > 0 {
      RowKeysMember(mentions, from, j - 1, msg);
      var to := mentions[j - 1];
      MsgsIn(KeyOf(from), KeyOf(to), to.candidates.keys, msg);
    }
  }

  /** A message of the first i rows comes from one of the first i senders. */
  lemma {:induction false} AllKeysMember(mentions: seq<MentionInfo>, i: nat, msg: Message)
    requires i <= |mentions|
    ensures msg in AllKeys(mentions, i) <==>
      exists a, b :: (0 <= a < i && 0 <= b < |mentions| && KeyOf(mentions[a]) != KeyOf(mentions[b]) &&
        msg.from == KeyOf(mentions[a]) && msg.to == KeyOf(mentions[b]) && msg.entity in mentions[b].candidates.keys)
  {
    if i > 0 {
      AllKeysMember(mentions, i - 1, msg);
      RowKeysMember(mentions, mentions[i - 1], |mentions|, msg);
    }
  }

  /** The messages of all rows are exactly the slots; none goes from a mention to itself. */
  lemma AllKeysAreSlots(mentions: seq<MentionInfo>, msg: Message)
    ensures msg in AllKeys(mentions, |mentions|) <==> IsSlot(mentions, msg)
    ensures msg in AllKeys(mentions, |mentions|) ==> msg.from != msg.to
  {
    AllKeysMember(mentions, |mentions|, msg);
  }

  /** A sender's loop, when it succeeds, adds exactly the messages of its row. */
  lemma {:induction false} SweepRowKeys(s: Scoring, state: MessagesState, mentions: seq<MentionInfo>, from: MentionInfo, j: nat,
                                        acc: map<Message, real>)
    requires j <= |mentions| && SweepRow(s, state, mentions, from, j, acc).Ok?
    ensures SweepRow(s, state, mentions, from, j, acc).value.Keys == acc.Keys + RowKeys(mentions, from, j)
  {
    if j > 0 {
      SweepRowKeys(s, state, mentions, from, j - 1, acc);
    }
  }

  /** A sweep, when it succeeds, writes exactly the slots. */
  lemma {:induction false} SweepUpToKeys(s: Scoring, state: MessagesState, mentions: seq<MentionInfo>, i: nat)
    requires i <= |mentions| && SweepUpTo(s, state, mentions, i).Ok?
    ensures SweepUpTo(s, state, mentions, i).value.Keys == AllKeys(mentions, i)
  {
    if i > 0 {
      SweepUpToKeys(s, state, mentions, i - 1);
      SweepRowKeys(s, state, mentions, mentions[i - 1], |mentions|, SweepUpTo(s, state, mentions, i - 1).value);
    }
  }

  /** Putting zeros keeps every entry zero. */
  lemma {:induction false} PutRawZeros(m: map<Message, real>, f: MentionKey, t: MentionKey, es: seq<int>, n: nat)
    requires n <= |es| && forall msg :: msg in m ==> m[msg] == 0.0
    ensures forall msg :: msg in PutRaw(m, f, t, es, Zeros(|es|), n) ==> PutRaw(m, f, t, es, Zeros(|es|), n)[msg] == 0.0
  {
    if n > 0 {
      PutRawZeros(m, f, t, es, n - 1);
    }
  }

  /** A sender's initial row adds exactly its row's messages, all zero. */
  lemma {:induction false} InitRowKeys(mentions: seq<MentionInfo>, from: MentionInfo, j: nat, acc: map<Message, real>)
    requires j <= |mentions| && forall msg :: msg in acc ==> acc[msg] == 0.0
    ensures InitRow(mentions, from, j, acc).Keys == acc.Keys + RowKeys(mentions, from, j)
    ensures forall msg :: msg in InitRow(mentions, from, j, acc) ==> InitRow(mentions, from, j, acc)[msg] == 0.0
  {
    if j > 0 {
      InitRowKeys(mentions, from, j - 1, acc);
      var to := mentions[j - 1];
      var es := to.candidates.keys;
      assert es[..|es|] == es;
      PutRawZeros(InitRow(mentions, from, j - 1, acc), KeyOf(from), KeyOf(to), es, |es|);
    }
  }

  lemma {:induction false} InitUpToKeys(mentions: seq<MentionInfo>, i: nat)
    requires i <= |mentions|
    ensures InitUpTo(mentions, i).Keys == AllKeys(mentions, i)
    ensures forall msg :: msg in InitUpTo(mentions, i) ==> InitUpTo(mentions, i)[msg] == 0.0
  {
    if i > 0 {
      InitUpToKeys(mentions, i - 1);
      InitRowKeys(mentions, mentions[i - 1], |mentions|, InitUpTo(mentions, i - 1));
    }
  }

  /**
   * The initial messages are one zero message per ordered pair of mentions that are not equal
   * and per candidate of the receiver, and nothing else.
   */
  lemma InitMessagesAreSlots(mentions: seq<MentionInfo>)
    ensures forall msg :: msg in InitMessages(mentions) <==> IsSlot(mentions, msg)
    ensures forall msg :: msg in InitMessages(mentions) ==> InitMessages(mentions)[msg] == 0.0 && msg.from != msg.to
  {
    InitUpToKeys(mentions, |mentions|);
    forall msg ensures msg in InitMessages(mentions) <==> IsSlot(mentions, msg) {
      AllKeysAreSlots(mentions, msg);
    }
    forall msg | msg in InitMessages(mentions) ensures msg.from != msg.to {
      AllKeysAreSlots(mentions, msg);
    }
  }

  /** A sweep that succeeds writes one message per slot and no other, so none from a mention to itself. */
  lemma SweepWritesSlots(s: Scoring, mentions: seq<MentionInfo>, M: map<Message, real>)
    requires Sweep(s, mentions, M).Ok?
    ensures forall msg :: msg in Sweep(s, mentions, M).value <==> IsSlot(mentions, msg)
    ensures forall msg :: msg in Sweep(s, mentions, M).value ==> msg.from != msg.to
    ensures Complete(mentions, Sweep(s, mentions, M).value)
  {
    SweepUpToKeys(s, Some((M, map[])), mentions, |mentions|);
    forall msg ensures msg in Sweep(s, mentions, M).value <==> IsSlot(mentions, msg) {
      AllKeysAreSlots(mentions, msg);
    }
    forall msg | msg in Sweep(s, mentions, M).value ensures msg.from != msg.to {
      AllKeysAreSlots(mentions, msg);
    }
  }

  // ---------------------------------------------------------------------------
  // The value of each message a sweep writes.

  /** No two mentions are equal. */
  ghost predicate DistinctMentions(mentions: seq<MentionInfo>)
  {
    forall a, b :: 0 <= a < b < |mentions| ==> KeyOf(mentions[a]) != KeyOf(mentions[b])
  }

  /** A sender's loop leaves every message from another sender as it was. */
  lemma {:induction false} SweepRowOthers(s: Scoring, state: MessagesState, mentions: seq<MentionInfo>, from: MentionInfo, j: nat,
                                          acc: map<Message, real>, msg: Message)
    requires j <= |mentions| && SweepRow(s, state, mentions, from, j, acc).Ok?
    requires msg in acc && msg.from != KeyOf(from)
    ensures msg in SweepRow(s, state, mentions, from, j, acc).value
    ensures SweepRow(s, state, mentions, from, j, acc).value[msg] == acc[msg]
  {
    if j > 0 {
      SweepRowOthers(s, state, mentions, from, j - 1, acc, msg);
      var to := mentions[j - 1];
      if KeyOf(from) != KeyOf(to) {
        var prev := SweepRow(s, state, mentions, from, j - 1, acc).value;
        var xs := Maxima(s, state, from, to).value;
        assert to.candidates.keys[..|to.candidates.keys|] == to.candidates.keys;
        PutRawKeep(prev, KeyOf(from), KeyOf(to), to.candidates.keys, xs, |to.candidates.keys|, msg);
        NormaliseKeep(PutRaw(prev, KeyOf(from), KeyOf(to), to.candidates.keys, xs, |to.candidates.keys|),
          KeyOf(from), KeyOf(to), to.candidates.keys, Normaliser(xs), |to.candidates.keys|, msg);
      }
    }
  }

  /** The first pass leaves alone every message that is not in its batch. */
  lemma {:induction false} PutRawKeep(m: map<Message, real>, f: MentionKey, t: MentionKey, es: seq<int>, xs: seq<real>, n: nat,
                                      msg: Message)
    requires n <= |es| && n <= |xs| && msg in m && (msg.from != f || msg.to != t)
    ensures msg in PutRaw(m, f, t, es, xs, n) && PutRaw(m, f, t, es, xs, n)[msg] == m[msg]
  {
    if n > 0 {
      PutRawKeep(m, f, t, es, xs, n - 1, msg);
    }
  }

  /** The second pass leaves alone every message that is not in its batch. */
  lemma {:induction false} NormaliseKeep(m: map<Message, real>, f: MentionKey, t: MentionKey, es: seq<int>, c: real, n: nat,
                                         msg: Message)
    requires n <= |es| && Msgs(f, t, es[..n]) <= m.Keys && msg in m && (msg.from != f || msg.to != t)
    ensures Normalise(m, f, t, es, c, n)[msg] == m[msg]
  {
    if n > 0 {
      assert es[..n] == es[..n - 1] + [es[n - 1]];
      NormaliseKeep(m, f, t, es, c, n - 1, msg);
    }
  }

  /**
   * In a sender's loop over mentions that are pairwise not equal, each message to a candidate
   * of a receiver holds its best score minus the minimum of that receiver's batch.
   */
  lemma {:induction false} SweepRowValues(s: Scoring, state: MessagesState, mentions: seq<MentionInfo>, from: MentionInfo, j: nat,
                                          acc: map<Message, real>, b: nat, q: nat)
    requires j <= |mentions| && SweepRow(s, state, mentions, from, j, acc).Ok?
    requires DistinctMentions(mentions) && WellFormedMentions(mentions)
    requires b < j && KeyOf(from) != KeyOf(mentions[b]) && q < |mentions[b].candidates.keys|
    ensures Maxima(s, state, from, mentions[b]).Ok?
    ensures var msg := Message(KeyOf(from), KeyOf(mentions[b]), mentions[b].candidates.keys[q]);
      var xs := Maxima(s, state, from, mentions[b]).value;
      msg in SweepRow(s, state, mentions, from, j, acc).value &&
      SweepRow(s, state, mentions, from, j, acc).value[msg] == xs[q] - Normaliser(xs)
  {
    var to := mentions[j - 1];
    var prev := SweepRow(s, state, mentions, from, j - 1, acc).value;
    var msg := Message(KeyOf(from), KeyOf(mentions[b]), mentions[b].candidates.keys[q]);
    if b == j - 1 {
      BatchValues(prev, KeyOf(from), KeyOf(to), to.candidates.keys, Maxima(s, state, from, to).value);
    } else {
      SweepRowValues(s, state, mentions, from, j - 1, acc, b, q);
      if KeyOf(from) != KeyOf(to) {
        var xs := Maxima(s, state, from, to).value;
        assert KeyOf(mentions[b]) != KeyOf(to);
        assert to.candidates.keys[..|to.candidates.keys|] == to.candidates.keys;
        PutRawKeep(prev, KeyOf(from), KeyOf(to), to.candidates.keys, xs, |to.candidates.keys|, msg);
        NormaliseKeep(PutRaw(prev, KeyOf(from), KeyOf(to), to.candidates.keys, xs, |to.candidates.keys|),
          KeyOf(from), KeyOf(to), to.candidates.keys, Normaliser(xs), |to.candidates.keys|, msg);
      }
    }
  }

  /** The same over the first i senders. */
  lemma {:induction false} SweepUpToValues(s: Scoring, state: MessagesState, mentions: seq<MentionInfo>, i: nat, a: nat, b: nat, q: nat)
    requires i <= |mentions| && SweepUpTo(s, state, mentions, i).Ok?
    requires DistinctMentions(mentions) && WellFormedMentions(mentions)
    requires a < i && b < |mentions| && a != b && q < |mentions[b].candidates.keys|
    ensures Maxima(s, state, mentions[a], mentions[b]).Ok?
    ensures var msg := Message(KeyOf(mentions[a]), KeyOf(mentions[b]), mentions[b].candidates.keys[q]);
      var xs := Maxima(s, state, mentions[a], mentions[b]).value;
      msg in SweepUpTo(s, state, mentions, i).value &&
      SweepUpTo(s, state, mentions, i).value[msg] == xs[q] - Normaliser(xs)
  {
    var prev := SweepUpTo(s, state, mentions, i - 1).value;
    assert KeyOf(mentions[a]) != KeyOf(mentions[b]) by {
      if a < b { assert KeyOf(mentions[a]) != KeyOf(mentions[b]); } else { assert KeyOf(mentions[b]) != KeyOf(mentions[a]); }
    }
    if a == i - 1 {
      SweepRowValues(s, state, mentions, mentions[a], |mentions|, prev, b, q);
    } else {
      SweepUpToValues(s, state, mentions, i - 1, a, b, q);
      var msg := Message(KeyOf(mentions[a]), KeyOf(mentions[b]), mentions[b].candidates.keys[q]);
      SweepRowOthers(s, state, mentions, mentions[i - 1], |mentions|, prev, msg);
    }
  }

  /**
   * Over mentions that are pairwise not equal, the message a sweep writes from one mention to
   * candidate q of another is that candidate's best message score minus the batch's
   * normalising constant, the least best score of the batch: so it is at least 0, and some
   * message of the batch is exactly 0.
   */
  lemma SweepValues(s: Scoring, mentions: seq<MentionInfo>, M: map<Message, real>, a: nat, b: nat, q: nat)
    requires Sweep(s, mentions, M).Ok? && DistinctMentions(mentions) && WellFormedMentions(mentions)
    requires a < |mentions| && b < |mentions| && a != b && q < |mentions[b].candidates.keys|
    ensures Maxima(s, Some((M, map[])), mentions[a], mentions[b]).Ok?
    ensures var xs := Maxima(s, Some((M, map[])), mentions[a], mentions[b]).value;
      var msg := Message(KeyOf(mentions[a]), KeyOf(mentions[b]), mentions[b].candidates.keys[q]);
      BestMessage(s, Some((M, map[])), mentions[a], mentions[b], mentions[b].candidates.keys[q]) == Ok(xs[q]) &&
      msg in Sweep(s, mentions, M).value &&
      Sweep(s, mentions, M).value[msg] == xs[q] - Normaliser(xs) && Sweep(s, mentions, M).value[msg] >= 0.0
    ensures exists p :: (0 <= p < |mentions[b].candidates.keys| &&
      var msg := Message(KeyOf(mentions[a]), KeyOf(mentions[b]), mentions[b].candidates.keys[p]);
      msg in Sweep(s, mentions, M).value && Sweep(s, mentions, M).value[msg] == 0.0)
  {
    var state: MessagesState := Some((M, map[]));
    var to := mentions[b];
    SweepUpToValues(s, state, mentions, |mentions|, a, b, q);
    var xs := Maxima(s, state, mentions[a], to).value;
    MaximaUpToDefined(s, state, mentions[a], to, |to.candidates.keys|);
    NormaliserIsMinimum(xs);
    var p :| 0 <= p < |xs| && Normaliser(xs) == xs[p];
    SweepUpToValues(s, state, mentions, |mentions|, a, b, p);
  }

  // ---------------------------------------------------------------------------
  // With complete messages every sweep and every score is defined.

  /** The pair count l(l-1) of the message score fits in an int. */
  predicate PairsFit(l: nat)
  {
    l * (l - 1) <= INT_MAX
  }

  /** Complete messages hold every message that a candidate of a mention receives. */
  lemma IncomingComplete(mentions: seq<MentionInfo>, M: map<Message, real>, a: nat, e: int)
    requires Complete(mentions, M) && a < |mentions| && e in mentions[a].candidates.keys
    ensures HasIncoming(M, KeyOf(mentions[a]), e, MentionKeys(mentions))
  {
    var keys := MentionKeys(mentions);
    forall k | 0 <= k < |keys| && keys[k] != KeyOf(mentions[a]) ensures Message(keys[k], KeyOf(mentions[a]), e) in M {
      var msg := Message(keys[k], KeyOf(mentions[a]), e);
      AllKeysMember(mentions, |mentions|, msg);
      assert 0 <= k < |mentions| && KeyOf(mentions[k]) != KeyOf(mentions[a]) &&
        msg.from == KeyOf(mentions[k]) && msg.to == KeyOf(mentions[a]) && msg.entity in mentions[a].candidates.keys;
    }
  }

  /** With complete messages, a message score is defined between candidates of two mentions that are not equal. */
  lemma MessageScoreDefined(s: Scoring, M: map<Message, real>, a: nat, b: nat, entityFrom: int, entityTo: int)
    requires WellFormedMentions(s.mentions) && Complete(s.mentions, M) && PairsFit(|s.mentions|)
    requires a < |s.mentions| && b < |s.mentions| && KeyOf(s.mentions[a]) != KeyOf(s.mentions[b])
    requires entityFrom in s.mentions[a].candidates.keys
    ensures MessageScoreOf(s, Some((M, map[])), s.mentions[a], s.mentions[b], entityFrom, entityTo).Ok?
  {
    var ms := s.mentions;
    PairsPositive(|ms|);
    IncomingComplete(ms, M, a, entityFrom);
    NeighborSumDefined(M, KeyOf(ms[a]), entityFrom, MentionKeys(ms));
    var msg := Message(KeyOf(ms[b]), KeyOf(ms[a]), entityFrom);
    AllKeysMember(ms, |ms|, msg);
    assert KeyOf(ms[b]) != KeyOf(ms[a]) && msg.from == KeyOf(ms[b]) && msg.to == KeyOf(ms[a]) &&
      msg.entity in ms[a].candidates.keys;
  }

  lemma BestMessageDefined(s: Scoring, M: map<Message, real>, a: nat, b: nat, entityTo: int)
    requires WellFormedMentions(s.mentions) && Complete(s.mentions, M) && PairsFit(|s.mentions|)
    requires a < |s.mentions| && b < |s.mentions| && KeyOf(s.mentions[a]) != KeyOf(s.mentions[b])
    ensures BestMessage(s, Some((M, map[])), s.mentions[a], s.mentions[b], entityTo).Ok?
  {
    var from := s.mentions[a];
    BestUpToBest(s, Some((M, map[])), from, s.mentions[b], entityTo, |from.candidates.keys|);
    forall q | 0 <= q < |from.candidates.keys|
      ensures MessageScoreOf(s, Some((M, map[])), from, s.mentions[b], from.candidates.keys[q], entityTo).Ok?
    {
      MessageScoreDefined(s, M, a, b, from.candidates.keys[q], entityTo);
    }
  }

  lemma SweepPairDefined(s: Scoring, M: map<Message, real>, a: nat, b: nat, acc: map<Message, real>)
    requires WellFormedMentions(s.mentions) && Complete(s.mentions, M) && PairsFit(|s.mentions|)
    requires a < |s.mentions| && b < |s.mentions|
    ensures SweepPair(s, Some((M, map[])), s.mentions[a], s.mentions[b], acc).Ok?
  {
    var to := s.mentions[b];
    if KeyOf(s.mentions[a]) != KeyOf(to) {
      MaximaUpToDefined(s, Some((M, map[])), s.mentions[a], to, |to.candidates.keys|);
      forall q | 0 <= q < |to.candidates.keys| ensures BestMessage(s, Some((M, map[])), s.mentions[a], to, to.candidates.keys[q]).Ok? {
        BestMessageDefined(s, M, a, b, to.candidates.keys[q]);
      }
    }
  }

  lemma {:induction false} SweepRowDefined(s: Scoring, M: map<Message, real>, a: nat, j: nat, acc: map<Message, real>)
    requires WellFormedMentions(s.mentions) && Complete(s.mentions, M) && PairsFit(|s.mentions|)
    requires a < |s.mentions| && j <= |s.mentions|
    ensures SweepRow(s, Some((M, map[])), s.mentions, s.mentions[a], j, acc).Ok?
  {
    if j > 0 {
      SweepRowDefined(s, M, a, j - 1, acc);
      SweepPairDefined(s, M, a, j - 1, SweepRow(s, Some((M, map[])), s.mentions, s.mentions[a], j - 1, acc).value);
    }
  }

  lemma {:induction false} SweepUpToDefined(s: Scoring, M: map<Message, real>, i: nat)
    requires WellFormedMentions(s.mentions) && Complete(s.mentions, M) && PairsFit(|s.mentions|)
    requires i <= |s.mentions|
    ensures SweepUpTo(s, Some((M, map[])), s.mentions, i).Ok?
  {
    if i > 0 {
      SweepUpToDefined(s, M, i - 1);
      SweepRowDefined(s, M, i - 1, |s.mentions|, SweepUpTo(s, Some((M, map[])), s.mentions, i - 1).value);
    }
  }

  /**
   * Over the scorer's own mentions, with well-formed candidate maps and a pair count that fits
   * in an int, a sweep of complete messages is defined and its messages are complete again.
   */
  lemma SweepDefined(s: Scoring, M: map<Message, real>)
    requires WellFormedMentions(s.mentions) && Complete(s.mentions, M) && PairsFit(|s.mentions|)
    ensures Sweep(s, s.mentions, M).Ok? && Complete(s.mentions, Sweep(s, s.mentions, M).value)
  {
    SweepUpToDefined(s, M, |s.mentions|);
    SweepWritesSlots(s, s.mentions, M);
  }

  /** With complete messages the final scores and the solution are defined. */
  lemma ScoresDefined(s: Scoring, M: map<Message, real>)
    requires Complete(s.mentions, M)
    ensures ScoresOf(s, Some((M, map[]))).Ok? && SolutionOf(s, Some((M, map[]))).Ok?
  {
    var ms := s.mentions;
    var state := Some((M, map[]));
    forall i, j | 0 <= i < |ms| && 0 <= j < |ms[i].candidates.keys|
      ensures FinalOf(s, state, ms[i], ms[i].candidates.keys[j]).Ok?
    {
      IncomingComplete(ms, M, i, ms[i].candidates.keys[j]);
      FinalOfMeaning(s, M, map[], ms[i], ms[i].candidates.keys[j]);
    }
    ScoresUpToDefined(s, state, |ms|);
    forall i | 0 <= i < |ms| ensures ChoiceOf(s, state, ms[i]).Ok? {
      ChooseUpToBest(s, state, ms[i], |ms[i].candidates.keys|);
    }
    SolutionUpToDefined(s, state, |ms|);
  }

  // ---------------------------------------------------------------------------
  // The convergence test.

  function Abs(x: real): (r: real)
    ensures r >= 0.0 && (r == x || r == -x)
  {
    if x < 0.0 then -x else x
  }

  /** BigDecimal.max: the first one unless the second is strictly greater. */
  function Max(x: real, y: real): (r: real)
    ensures r >= x && r >= y && (r == x || r == y)
  {
    if y > x then y else x
  }

  /**
   * computeDelta's loop over the first n entries of scores1: the greatest |score1 - score2| so
   * far, from 0; an entry missing from scores2 is a null the subtraction dereferences.
   */
  function DeltaUpTo(scores1: OrderedMap<Candidate, real>, scores2: OrderedMap<Candidate, real>, n: nat): Result<real>
    requires n <= |scores1.keys|
  {
    if n == 0 then Ok(0.0)
    else
      match DeltaUpTo(scores1, scores2, n - 1)
      case Err(x) => Err(x)
      case Ok(d) =>
        var c := scores1.keys[n - 1];
        if c !in scores2.values then Err(NullPointer)
        else Ok(Max(d, Abs(scores1.GetOrDefault(c, 0.0) - scores2.values[c])))
  }

  function Delta(scores1: OrderedMap<Candidate, real>, scores2: OrderedMap<Candidate, real>): Result<real>
  {
    DeltaUpTo(scores1, scores2, |scores1.keys|)
  }

  /**
   * The delta is defined exactly when every candidate of the new scores has an old score; it is
   * then at least 0, at least every candidate's change, and equal to 0 or to one of them.
   */
  lemma {:induction false} DeltaUpToIsMaximum(scores1: OrderedMap<Candidate, real>, scores2: OrderedMap<Candidate, real>, n: nat)
    requires n <= |scores1.keys| && scores1.Valid()
    ensures DeltaUpTo(scores1, scores2, n).Ok? <==> forall q :: 0 <= q < n ==> scores1.keys[q] in scores2.values
    ensures DeltaUpTo(scores1, scores2, n).Ok? ==>
      var d := DeltaUpTo(scores1, scores2, n).value;
      d >= 0.0 &&
      (forall q :: 0 <= q < n ==> Abs(scores1.values[scores1.keys[q]] - scores2.values[scores1.keys[q]]) <= d) &&
      (d == 0.0 || exists q :: 0 <= q < n && d == Abs(scores1.values[scores1.keys[q]] - scores2.values[scores1.keys[q]]))
  {
    if n > 0 {
      DeltaUpToIsMaximum(scores1, scores2, n - 1);
    }
  }

  /** The delta of two score maps over the same candidates is defined. */
  lemma DeltaDefined(scores1: OrderedMap<Candidate, real>, scores2: OrderedMap<Candidate, real>)
    requires scores1.Valid() && scores1.values.Keys <= scores2.values.Keys
    ensures Delta(scores1, scores2).Ok?
  {
    DeltaUpToIsMaximum(scores1, scores2, |scores1.keys|);
  }

  /** Scores of the same mentions under any two message maps are over the same candidates. */
  lemma ScoresSameCandidates(s: Scoring, st1: MessagesState, st2: MessagesState)
    requires WellFormedMentions(s.mentions) && ScoresOf(s, st1).Ok? && ScoresOf(s, st2).Ok?
    ensures ScoresOf(s, st1).value.values.Keys == ScoresOf(s, st2).value.values.Keys
  {
    var n := |s.mentions|;
    forall c | c in ScoresOf(s, st1).value.values ensures c in ScoresOf(s, st2).value.values {
      ScoresUpToFrom(s, st1, n, c);
      var i, j :| 0 <= i < n && 0 <= j < |s.mentions[i].candidates.keys| &&
        c == Candidate(KeyOf(s.mentions[i]), s.mentions[i].candidates.keys[j]);
      ScoresUpToHas(s, st2, n, i, j);
    }
    forall c | c in ScoresOf(s, st2).value.values ensures c in ScoresOf(s, st1).value.values {
      ScoresUpToFrom(s, st2, n, c);
      var i, j :| 0 <= i < n && 0 <= j < |s.mentions[i].candidates.keys| &&
        c == Candidate(KeyOf(s.mentions[i]), s.mentions[i].candidates.keys[j]);
      ScoresUpToHas(s, st1, n, i, j);
    }
  }

  // ---------------------------------------------------------------------------
  // The solve loop.

  /**
   * One pass of solve's loop, sweep t, given the messages and scores of sweep t - 1: the new
   * messages, their final scores, and whether from the second sweep on no score moved by EPS
   * or more.
   */
  function IterationOf(s: Scoring, mentions: seq<MentionInfo>, t: nat, oldM: map<Message, real>,
                       prev: OrderedMap<Candidate, real>): Result<(map<Message, real>, OrderedMap<Candidate, real>, bool)>
  {
    match Sweep(s, mentions, oldM)
    case Err(x) => Err(x)
    case Ok(newM) =>
      match ScoresOf(s, Some((newM, map[])))
      case Err(x) => Err(x)
      case Ok(scores) =>
        if t == 1 then Ok((newM, scores, false))
        else
          match Delta(scores, prev)
          case Err(x) => Err(x)
          case Ok(delta) => Ok((newM, scores, delta < EPS))
  }

  /**
   * solve's loop from sweep t on: it ends at a converged sweep or after sweep `iterations`, with
   * the messages of the last sweep.
   */
  function Iterate(s: Scoring, mentions: seq<MentionInfo>, iterations: int, t: nat, oldM: map<Message, real>,
                   prev: OrderedMap<Candidate, real>): Result<map<Message, real>>
    requires 1 <= t <= iterations
    decreases iterations - t
  {
    match IterationOf(s, mentions, t, oldM, prev)
    case Err(x) => Err(x)
    case Ok((newM, scores, converged)) =>
      if converged || t == iterations then Ok(newM)
      else Iterate(s, mentions, iterations, t + 1, newM, scores)
  }

  /** solve: the solution of the last sweep's messages, or of null ones when no sweep runs. */
  function SolveSpec(s: Scoring, mentions: seq<MentionInfo>, iterations: int): Result<OrderedMap<MentionKey, int>>
  {
    if iterations < 1 then SolutionOf(s, None)
    else
      match Iterate(s, mentions, iterations, 1, InitMessages(mentions), Empty())
      case Err(x) => Err(x)
      case Ok(M) => SolutionOf(s, Some((M, map[])))
  }

  /** The messages after t sweeps that all run, starting from the initial ones. */
  function MessagesAt(s: Scoring, mentions: seq<MentionInfo>, t: nat): Result<map<Message, real>>
  {
    if t == 0 then Ok(InitMessages(mentions))
    else
      match MessagesAt(s, mentions, t - 1)
      case Err(x) => Err(x)
      case Ok(M) => Sweep(s, mentions, M)
  }

  /** The final scores after t sweeps. */
  function ScoresAt(s: Scoring, mentions: seq<MentionInfo>, t: nat): Result<OrderedMap<Candidate, real>>
  {
    match MessagesAt(s, mentions, t)
    case Err(x) => Err(x)
    case Ok(M) => ScoresOf(s, Some((M, map[])))
  }

  /** Sweep t, from the second on, moved no final score by EPS or more. */
  predicate Converged(s: Scoring, mentions: seq<MentionInfo>, t: nat)
  {
    2 <= t && ScoresAt(s, mentions, t).Ok? && ScoresAt(s, mentions, t - 1).Ok? &&
    Delta(ScoresAt(s, mentions, t).value, ScoresAt(s, mentions, t - 1).value).Ok? &&
    Delta(ScoresAt(s, mentions, t).value, ScoresAt(s, mentions, t - 1).value).value < EPS
  }

  /** The sweep the loop stops at, counting from t: the first converged one, or the last allowed. */
  function StopFrom(s: Scoring, mentions: seq<MentionInfo>, iterations: int, t: nat): nat
    decreases iterations - t
  {
    if t >= iterations || Converged(s, mentions, t) then t else StopFrom(s, mentions, iterations, t + 1)
  }

  /**
   * The stopping sweep is within [t, iterations]; it is converged if it is not the last, and
   * no sweep before it converged. So an early stop happens only from the second sweep on.
   */
  lemma {:induction false} StopFromBounds(s: Scoring, mentions: seq<MentionInfo>, iterations: int, t: nat)
    requires t <= iterations
    ensures t <= StopFrom(s, mentions, iterations, t) <= iterations
    ensures StopFrom(s, mentions, iterations, t) < iterations ==>
      Converged(s, mentions, StopFrom(s, mentions, iterations, t)) && StopFrom(s, mentions, iterations, t) >= 2
    ensures forall u :: t <= u < StopFrom(s, mentions, iterations, t) ==> !Converged(s, mentions, u)
    decreases iterations - t
  {
    if t < iterations && !Converged(s, mentions, t) {
      StopFromBounds(s, mentions, iterations, t + 1);
    }
  }

  /**
   * The loop from sweep t, started from the messages and scores of sweep t - 1, returns
   * when it succeeds the messages of the sweep it stops at.
   */
  lemma {:induction false} IterateStops(s: Scoring, mentions: seq<MentionInfo>, iterations: int, t: nat,
                                        oldM: map<Message, real>, prev: OrderedMap<Candidate, real>)
    requires 1 <= t <= iterations && MessagesAt(s, mentions, t - 1) == Ok(oldM)
    requires t >= 2 ==> ScoresAt(s, mentions, t - 1) == Ok(prev)
    requires Iterate(s, mentions, iterations, t, oldM, prev).Ok?
    ensures Iterate(s, mentions, iterations, t, oldM, prev) == MessagesAt(s, mentions, StopFrom(s, mentions, iterations, t))
    decreases iterations - t
  {
    var newM := Sweep(s, mentions, oldM).value;
    var scores := ScoresOf(s, Some((newM, map[]))).value;
    assert MessagesAt(s, mentions, t) == Ok(newM);
    assert ScoresAt(s, mentions, t) == Ok(scores);
    if t < iterations && !Converged(s, mentions, t) {
      IterateStops(s, mentions, iterations, t + 1, newM, scores);
    }
  }

  /**
   * With at least one sweep, a solution that solve finds is the one of the messages of the
   * first converged sweep from the second on, or of the last allowed sweep.
   */
  lemma SolveStops(s: Scoring, mentions: seq<MentionInfo>, iterations: int)
    requires iterations >= 1 && SolveSpec(s, mentions, iterations).Ok?
    ensures var stop := StopFrom(s, mentions, iterations, 1);
      MessagesAt(s, mentions, stop).Ok? &&
      SolveSpec(s, mentions, iterations) == SolutionOf(s, Some((MessagesAt(s, mentions, stop).value, map[])))
  {
    IterateStops(s, mentions, iterations, 1, InitMessages(mentions), Empty());
  }

  /** Without a sweep the solution is read from null messages: it fails once any mention has a candidate. */
  lemma SolveWithoutSweeps(s: Scoring, mentions: seq<MentionInfo>, iterations: int)
    requires iterations < 1
    ensures SolveSpec(s, mentions, iterations).Err? <==>
      exists i :: 0 <= i < |s.mentions| && |s.mentions[i].candidates.keys| > 0
  {
    SolutionWithoutMessages(s);
  }

  /** Over the scorer's own mentions, every sweep is defined and its messages are complete. */
  lemma {:induction false} MessagesAtComplete(s: Scoring, t: nat)
    requires WellFormedMentions(s.mentions) && PairsFit(|s.mentions|)
    ensures MessagesAt(s, s.mentions, t).Ok? && Complete(s.mentions, MessagesAt(s, s.mentions, t).value)
  {
    if t == 0 {
      InitUpToKeys(s.mentions, |s.mentions|);
    } else {
      MessagesAtComplete(s, t - 1);
      SweepDefined(s, MessagesAt(s, s.mentions, t - 1).value);
    }
  }

  lemma {:induction false} IterateDefined(s: Scoring, iterations: int, t: nat, oldM: map<Message, real>,
                                          prev: OrderedMap<Candidate, real>)
    requires WellFormedMentions(s.mentions) && PairsFit(|s.mentions|)
    requires 1 <= t <= iterations && MessagesAt(s, s.mentions, t - 1) == Ok(oldM)
    requires t >= 2 ==> ScoresAt(s, s.mentions, t - 1) == Ok(prev)
    ensures Iterate(s, s.mentions, iterations, t, oldM, prev).Ok?
    decreases iterations - t
  {
    MessagesAtComplete(s, t - 1);
    SweepDefined(s, oldM);
    var newM := Sweep(s, s.mentions, oldM).value;
    ScoresDefined(s, newM);
    var scores := ScoresOf(s, Some((newM, map[]))).value;
    assert MessagesAt(s, s.mentions, t) == Ok(newM);
    if t != 1 {
      ScoresUpToValid(s, Some((newM, map[])), |s.mentions|);
      ScoresSameCandidates(s, Some((newM, map[])), Some((oldM, map[])));
      DeltaDefined(scores, prev);
    }
    if t < iterations {
      IterateDefined(s, iterations, t + 1, newM, scores);
    }
  }

  /**
   * Over the scorer's own mentions, with well-formed candidate maps and a pair count that fits
   * in an int, solve with at least one sweep always finds a solution.
   */
  lemma SolveDefined(s: Scoring, iterations: int)
    requires WellFormedMentions(s.mentions) && PairsFit(|s.mentions|) && iterations >= 1
    ensures SolveSpec(s, s.mentions, iterations).Ok?
  {
    IterateDefined(s, iterations, 1, InitMessages(s.mentions), Empty());
    IterateStops(s, s.mentions, iterations, 1, InitMessages(s.mentions), Empty());
    MessagesAtComplete(s, StopFrom(s, s.mentions, iterations, 1));
    ScoresDefined(s, MessagesAt(s, s.mentions, StopFrom(s, s.mentions, iterations, 1)).value);
  }

  // ---------------------------------------------------------------------------
  // Failures propagate: once a prefix of a loop fails, the loop fails with the same error.

  lemma {:induction false} BestUpToFails(s: Scoring, state: MessagesState, from: MentionInfo, to: MentionInfo, entityTo: int,
                                         k: nat, n: nat)
    requires k <= n <= |from.candidates.keys| && BestUpTo(s, state, from, to, entityTo, k).Err?
    ensures BestUpTo(s, state, from, to, entityTo, n) == BestUpTo(s, state, from, to, entityTo, k)
  {
    if n > k {
      BestUpToFails(s, state, from, to, entityTo, k, n - 1);
    }
  }

  lemma {:induction false} MaximaUpToFails(s: Scoring, state: MessagesState, from: MentionInfo, to: MentionInfo, k: nat, n: nat)
    requires k <= n <= |to.candidates.keys| && MaximaUpTo(s, state, from, to, k).Err?
    ensures MaximaUpTo(s, state, from, to, n) == MaximaUpTo(s, state, from, to, k)
  {
    if n > k {
      MaximaUpToFails(s, state, from, to, k, n - 1);
    }
  }

  lemma {:induction false} SweepRowFails(s: Scoring, state: MessagesState, mentions: seq<MentionInfo>, from: MentionInfo,
                                         k: nat, n: nat, acc: map<Message, real>)
    requires k <= n <= |mentions| && SweepRow(s, state, mentions, from, k, acc).Err?
    ensures SweepRow(s, state, mentions, from, n, acc) == SweepRow(s, state, mentions, from, k, acc)
  {
    if n > k {
      SweepRowFails(s, state, mentions, from, k, n - 1, acc);
    }
  }

  lemma {:induction false} SweepUpToFails(s: Scoring, state: MessagesState, mentions: seq<MentionInfo>, k: nat, n: nat)
    requires k <= n <= |mentions| && SweepUpTo(s, state, mentions, k).Err?
    ensures SweepUpTo(s, state, mentions, n) == SweepUpTo(s, state, mentions, k)
  {
    if n > k {
      SweepUpToFails(s, state, mentions, k, n - 1);
    }
  }

  lemma {:induction false} DeltaUpToFails(scores1: OrderedMap<Candidate, real>, scores2: OrderedMap<Candidate, real>, k: nat, n: nat)
    requires k <= n <= |scores1.keys| && DeltaUpTo(scores1, scores2, k).Err?
    ensures DeltaUpTo(scores1, scores2, n) == DeltaUpTo(scores1, scores2, k)
  {
    if n > k {
      DeltaUpToFails(scores1, scores2, k, n - 1);
    }
  }

  /** The first pass reads only the first n maxima. */
  lemma {:induction false} PutRawPrefix(m: map<Message, real>, f: MentionKey, t: MentionKey, es: seq<int>, xs: seq<real>,
                                        ys: seq<real>, n: nat)
    requires n <= |es| && n <= |xs| && n <= |ys| && xs[..n] == ys[..n]
    ensures PutRaw(m, f, t, es, xs, n) == PutRaw(m, f, t, es, ys, n)
  {
    if n > 0 {
      assert xs[n - 1] == xs[..n][n - 1] == ys[..n][n - 1] == ys[n - 1];
      assert xs[..n - 1] == xs[..n][..n - 1];
      assert ys[..n - 1] == ys[..n][..n - 1];
      PutRawPrefix(m, f, t, es, xs, ys, n - 1);
    }
  }

  lemma MsgsPrefix(f: MentionKey, t: MentionKey, es: seq<int>, k: nat)
    requires k <= |es|
    ensures Msgs(f, t, es[..k]) <= Msgs(f, t, es)
  {
    forall msg | msg in Msgs(f, t, es[..k]) ensures msg in Msgs(f, t, es) {
      MsgsIn(f, t, es[..k], msg);
      MsgsIn(f, t, es, msg);
    }
  }

  /** A cache with the totals of the empty one scores messages as the empty one does. */
  lemma MessageScoreSameTotals(s: Scoring, M: map<Message, real>, cache: map<Candidate, real>, from: MentionInfo,
                               to: MentionInfo, entityFrom: int, entityTo: int)
    requires SameTotals(M, map[], cache, MentionKeys(s.mentions))
    ensures MessageScoreOf(s, Some((M, cache)), from, to, entityFrom, entityTo) ==
      MessageScoreOf(s, Some((M, map[])), from, to, entityFrom, entityTo)
  {
    SameTotalsQuery(M, map[], cache, KeyOf(from), entityFrom, Some(KeyOf(to)), MentionKeys(s.mentions));
  }

  // ---------------------------------------------------------------------------
  // The loops of a sweep. The old messages M are read through a MessagesMap whose cache keeps
  // the totals of an empty one; the new messages are written into another MessagesMap.

  /** The loop over from's candidates for one new message: the first greatest message score. */
  method BestMessageLoop(scorer: ScorerBasic, from: MentionInfo, to: MentionInfo, entityTo: int, oldMessages: MessagesMap,
                         ghost M: map<Message, real>) returns (r: Result<real>)
    requires oldMessages.messages == M && SameTotals(M, map[], oldMessages.cache, MentionKeys(scorer.mentions))
    modifies oldMessages
    ensures oldMessages.messages == M && SameTotals(M, map[], oldMessages.cache, MentionKeys(scorer.mentions))
    ensures r == BestMessage(scorer.State(), Some((M, map[])), from, to, entityTo)
  {
    ghost var s := scorer.State();
    ghost var state: MessagesState := Some((M, map[]));
    var keys := from.candidates.keys;
    var bestScore := 0.0;
    var bestEntity := -1;
    for k := 0 to |keys|
      invariant oldMessages.messages == M && SameTotals(M, map[], oldMessages.cache, MentionKeys(scorer.mentions))
      invariant BestUpTo(s, state, from, to, entityTo, k) == Ok((bestEntity, bestScore))
    {
      var entityFrom := keys[k];
      ghost var cache := oldMessages.cache;
      var score := scorer.ComputeMessageScore(from, to, entityFrom, entityTo, oldMessages);
      MessageScoreSameTotals(s, M, cache, from, to, entityFrom, entityTo);
      if score.Err? {
        BestUpToFails(s, state, from, to, entityTo, k + 1, |keys|);
        return Err(score.error);
      }
      if bestEntity == -1 || score.value > bestScore {
        bestEntity := entityFrom;
        bestScore := score.value;
      }
    }
    return Ok(bestScore);
  }

  /**
   * One (from, to) batch: each new message to a candidate of `to` is put unnormalised while the
   * normalising constant is tracked, then every one of them is read back and lowered by it.
   */
  method BatchLoop(scorer: ScorerBasic, from: MentionInfo, to: MentionInfo, oldMessages: MessagesMap, ghost M: map<Message, real>,
                   newMessages: MessagesMap) returns (r: Result<()>)
    requires oldMessages != newMessages && KeyOf(from) != KeyOf(to)
    requires oldMessages.messages == M && SameTotals(M, map[], oldMessages.cache, MentionKeys(scorer.mentions))
    modifies oldMessages, newMessages
    ensures oldMessages.messages == M && SameTotals(M, map[], oldMessages.cache, MentionKeys(scorer.mentions))
    ensures newMessages.cache == old(newMessages.cache)
    ensures var next := SweepPair(scorer.State(), Some((M, map[])), from, to, old(newMessages.messages));
      (next.Err? ==> r == Err(next.error)) && (next.Ok? ==> r.Ok? && newMessages.messages == next.value)
  {
    ghost var acc := newMessages.messages;
    var normalizingConstant, xs := PutMaxima(scorer, from, to, oldMessages, M, newMessages);
    if normalizingConstant.Err? {
      return Err(normalizingConstant.error);
    }
    var es := to.candidates.keys;
    assert es[..|es|] == es;
    NormaliseLoop(newMessages, KeyOf(from), KeyOf(to), es, normalizingConstant.value);
    return Ok(());
  }

  /** A batch's first pass: each best message put as it is, and the normalising constant of them all. */
  method PutMaxima(scorer: ScorerBasic, from: MentionInfo, to: MentionInfo, oldMessages: MessagesMap, ghost M: map<Message, real>,
                   newMessages: MessagesMap) returns (r: Result<real>, ghost xs: seq<real>)
    requires oldMessages != newMessages
    requires oldMessages.messages == M && SameTotals(M, map[], oldMessages.cache, MentionKeys(scorer.mentions))
    modifies oldMessages, newMessages
    ensures oldMessages.messages == M && SameTotals(M, map[], oldMessages.cache, MentionKeys(scorer.mentions))
    ensures newMessages.cache == old(newMessages.cache)
    ensures var maxima := Maxima(scorer.State(), Some((M, map[])), from, to);
      (maxima.Err? ==> r == Err(maxima.error)) &&
      (maxima.Ok? ==> (maxima.value == xs && r == Ok(Normaliser(xs)) &&
        newMessages.messages == PutRaw(old(newMessages.messages), KeyOf(from), KeyOf(to), to.candidates.keys, xs, |xs|)))
  {
    ghost var s := scorer.State();
    ghost var state: MessagesState := Some((M, map[]));
    ghost var acc := newMessages.messages;
    var f, t, es := KeyOf(from), KeyOf(to), to.candidates.keys;
    xs := [];
    var uninitialized := true;
    var normalizingConstant := 0.0;
    for k := 0 to |es|
      invariant oldMessages.messages == M && SameTotals(M, map[], oldMessages.cache, MentionKeys(scorer.mentions))
      invariant newMessages.cache == old(newMessages.cache)
      invariant MaximaUpTo(s, state, from, to, k) == Ok(xs)
      invariant newMessages.messages == PutRaw(acc, f, t, es, xs, k)
      invariant uninitialized <==> k == 0
      invariant normalizingConstant == Normaliser(xs)
    {
      var entityTo := es[k];
      var best := BestMessageLoop(scorer, from, to, entityTo, oldMessages, M);
      if best.Err? {
        MaximaUpToFails(s, state, from, to, k + 1, |es|);
        return Err(best.error), xs;
      }
      if uninitialized || normalizingConstant > best.value {
        uninitialized := false;
        normalizingConstant := best.value;
      }
      newMessages.Put(Message(f, t, entityTo), best.value);
      assert (xs + [best.value])[..k] == xs;
      PutRawPrefix(acc, f, t, es, xs, xs + [best.value], k);
      xs := xs + [best.value];
    }
    return Ok(normalizingConstant), xs;
  }

  /** A batch's second pass: each message from f to t read back and lowered by the normalising constant. */
  method NormaliseLoop(newMessages: MessagesMap, f: MentionKey, t: MentionKey, es: seq<int>, c: real)
    requires Msgs(f, t, es[..|es|]) <= newMessages.messages.Keys
    modifies newMessages
    ensures newMessages.cache == old(newMessages.cache)
    ensures newMessages.messages == Normalise(old(newMessages.messages), f, t, es, c, |es|)
  {
    ghost var raw := newMessages.messages;
    for k := 0 to |es|
      invariant newMessages.cache == old(newMessages.cache)
      invariant Msgs(f, t, es[..k]) <= raw.Keys
      invariant newMessages.messages == Normalise(raw, f, t, es, c, k)
    {
      var message := Message(f, t, es[k]);
      assert es[..|es|] == es;
      MsgsIn(f, t, es, message);
      MsgsPrefix(f, t, es, k + 1);
      var normalizedScore := newMessages.messages[message] - c;
      newMessages.Put(message, normalizedScore);
    }
  }

  /** The loop over the receivers for one sender, skipping the sender itself. */
  method SweepRowLoop(scorer: ScorerBasic, mentions: seq<MentionInfo>, from: MentionInfo, oldMessages: MessagesMap,
                      ghost M: map<Message, real>, newMessages: MessagesMap) returns (r: Result<()>)
    requires oldMessages != newMessages
    requires oldMessages.messages == M && SameTotals(M, map[], oldMessages.cache, MentionKeys(scorer.mentions))
    modifies oldMessages, newMessages
    ensures oldMessages.messages == M && SameTotals(M, map[], oldMessages.cache, MentionKeys(scorer.mentions))
    ensures newMessages.cache == old(newMessages.cache)
    ensures var next := SweepRow(scorer.State(), Some((M, map[])), mentions, from, |mentions|, old(newMessages.messages));
      (next.Err? ==> r == Err(next.error)) && (next.Ok? ==> r.Ok? && newMessages.messages == next.value)
  {
    ghost var s := scorer.State();
    ghost var state: MessagesState := Some((M, map[]));
    ghost var acc := newMessages.messages;
    for j := 0 to |mentions|
      invariant oldMessages.messages == M && SameTotals(M, map[], oldMessages.cache, MentionKeys(scorer.mentions))
      invariant newMessages.cache == old(newMessages.cache)
      invariant SweepRow(s, state, mentions, from, j, acc) == Ok(newMessages.messages)
    {
      var to := mentions[j];
      if KeyOf(from) == KeyOf(to) {
        continue;
      }
      var batch := BatchLoop(scorer, from, to, oldMessages, M, newMessages);
      if batch.Err? {
        SweepRowFails(s, state, mentions, from, j + 1, |mentions|, acc);
        return batch;
      }
    }
    return Ok(());
  }

  /** One sweep: every sender's row, written into a new messages map. */
  method SweepLoop(scorer: ScorerBasic, mentions: seq<MentionInfo>, oldMessages: MessagesMap, ghost M: map<Message, real>)
    returns (r: Result<MessagesMap>)
    requires oldMessages.messages == M && SameTotals(M, map[], oldMessages.cache, MentionKeys(scorer.mentions))
    modifies oldMessages
    ensures oldMessages.messages == M && SameTotals(M, map[], oldMessages.cache, MentionKeys(scorer.mentions))
    ensures r.Ok? ==> fresh(r.value) && r.value.cache == map[] && Ok(r.value.messages) == Sweep(scorer.State(), mentions, M)
    ensures r.Err? ==> Sweep(scorer.State(), mentions, M) == Err(r.error)
  {
    ghost var s := scorer.State();
    ghost var state: MessagesState := Some((M, map[]));
    var newMessages := new MessagesMap();
    for i := 0 to |mentions|
      invariant oldMessages.messages == M && SameTotals(M, map[], oldMessages.cache, MentionKeys(scorer.mentions))
      invariant fresh(newMessages) && newMessages.cache == map[]
      invariant SweepUpTo(s, state, mentions, i) == Ok(newMessages.messages)
    {
      var row := SweepRowLoop(scorer, mentions, mentions[i], oldMessages, M, newMessages);
      if row.Err? {
        SweepUpToFails(s, state, mentions, i + 1, |mentions|);
        return Err(row.error);
      }
    }
    return Ok(newMessages);
  }

  /** initializeMessages' loop over one receiver's candidates: a zero message to each. */
  method PutZeros(result: MessagesMap, f: MentionKey, t: MentionKey, es: seq<int>)
    modifies result
    ensures result.cache == old(result.cache)
    ensures result.messages == PutRaw(old(result.messages), f, t, es, Zeros(|es|), |es|)
  {
    ghost var batch := result.messages;
    for k := 0 to |es|
      invariant result.cache == old(result.cache)
      invariant result.messages == PutRaw(batch, f, t, es, Zeros(|es|), k)
    {
      result.Put(Message(f, t, es[k]), 0.0);
    }
  }

  // ---------------------------------------------------------------------------
  // The solver.

  class LoopyBeliefPropagation {
    const mentions: seq<MentionInfo>
    const scorer: ScorerBasic
    var iterations: int
    var solution: Option<OrderedMap<MentionKey, int>>

    /** The solution, once there is one, is a well-formed map. */
    ghost predicate Valid()
      reads this
    {
      solution.Some? ==> solution.value.Valid()
    }

    constructor (mentions: seq<MentionInfo>, iterations: int, scorer: ScorerBasic)
      ensures this.mentions == mentions && this.iterations == iterations && this.scorer == scorer
      ensures solution == None && Valid()
    {
      this.mentions := mentions;
      this.iterations := iterations;
      this.scorer := scorer;
      solution := None;
    }

    /** initializeMessages: a zero message for every slot, in a new messages map. */
    method InitializeMessages() returns (result: MessagesMap)
      ensures fresh(result) && result.messages == InitMessages(mentions) && result.cache == map[]
    {
      result := new MessagesMap();
      for i := 0 to |mentions|
        invariant fresh(result) && result.cache == map[]
        invariant result.messages == InitUpTo(mentions, i)
      {
        var from := mentions[i];
        ghost var row := result.messages;
        for j := 0 to |mentions|
          invariant fresh(result) && result.cache == map[]
          invariant result.messages == InitRow(mentions, from, j, row)
        {
          var to := mentions[j];
          if KeyOf(from) == KeyOf(to) {
            continue;
          }
          PutZeros(result, KeyOf(from), KeyOf(to), to.candidates.keys);
        }
      }
    }

    /** computeDelta: the greatest change of a final score, over the candidates of scores1. */
    method ComputeDelta(scores1: OrderedMap<Candidate, real>, scores2: OrderedMap<Candidate, real>) returns (r: Result<real>)
      ensures r == Delta(scores1, scores2)
    {
      var maxDelta := 0.0;
      var keys := scores1.keys;
      for k := 0 to |keys|
        invariant DeltaUpTo(scores1, scores2, k) == Ok(maxDelta)
      {
        var candidate := keys[k];
        var score1 := scores1.GetOrDefault(candidate, 0.0);
        if candidate !in scores2.values {
          DeltaUpToFails(scores1, scores2, k + 1, |keys|);
          return Err(NullPointer);
        }
        var score2 := scores2.values[candidate];
        maxDelta := Max(maxDelta, Abs(score1 - score2));
      }
      return Ok(maxDelta);
    }

    /** One pass of solve's loop: a sweep, the final scores of its messages, and from the second pass on the convergence test. */
    method SweepAndScore(iteration: nat, oldMessages: MessagesMap, prevScores: OrderedMap<Candidate, real>)
      returns (r: Result<(MessagesMap, OrderedMap<Candidate, real>, bool)>)
      requires WellFormedMentions(scorer.mentions)
      requires SameTotals(oldMessages.messages, map[], oldMessages.cache, MentionKeys(scorer.mentions))
      modifies oldMessages
      ensures oldMessages.messages == old(oldMessages.messages)
      ensures SameTotals(oldMessages.messages, map[], oldMessages.cache, MentionKeys(scorer.mentions))
      ensures var spec := IterationOf(scorer.State(), mentions, iteration, old(oldMessages.messages), prevScores);
        (spec.Err? ==> r == Err(spec.error)) &&
        (spec.Ok? ==> (r.Ok? && fresh(r.value.0) && spec.value == (r.value.0.messages, r.value.1, r.value.2) &&
          SameTotals(r.value.0.messages, map[], r.value.0.cache, MentionKeys(scorer.mentions))))
    {
      var next := SweepLoop(scorer, mentions, oldMessages, oldMessages.messages);
      if next.Err? {
        return Err(next.error);
      }
      var newMessages := next.value;
      var scores := scorer.ComputeScores(newMessages);
      if scores.Err? {
        return Err(scores.error);
      }
      var converged := false;
      if iteration != 1 {
        var delta := ComputeDelta(scores.value, prevScores);
        if delta.Err? {
          return Err(delta.error);
        }
        converged := delta.value < EPS;
      }
      return Ok((newMessages, scores.value, converged));
    }

    /**
     * solve: sweeps until the scores settle or `iterations` sweeps have run, then the solution
     * of the last sweep's messages. A failure leaves the previous solution in place.
     */
    method Solve() returns (r: Result<()>)
      requires WellFormedMentions(scorer.mentions) && Valid()
      modifies this
      ensures iterations == old(iterations) && Valid()
      ensures var spec := SolveSpec(scorer.State(), mentions, iterations);
        (spec.Ok? ==> r == Ok(()) && solution == Some(spec.value)) &&
        (spec.Err? ==> r == Err(spec.error) && solution == old(solution))
    {
      ghost var s := scorer.State();
      ghost var senders := MentionKeys(scorer.mentions);
      ghost var spec := if iterations >= 1 then Iterate(s, mentions, iterations, 1, InitMessages(mentions), Empty()) else Ok(map[]);
      var oldMessages := InitializeMessages();
      var newMessages: MessagesMap? := null;
      var prevScores: OrderedMap<Candidate, real> := Empty();
      var iteration := 1;
      while iteration <= iterations
        invariant iterations == old(iterations) && solution == old(solution)
        invariant fresh(oldMessages) && (newMessages != null ==> fresh(newMessages))
        invariant SameTotals(oldMessages.messages, map[], oldMessages.cache, senders)
        invariant iteration == 1 ==> oldMessages.messages == InitMessages(mentions) && prevScores == Empty() && newMessages == null
        invariant iteration > 1 ==> newMessages == oldMessages && iteration <= iterations + 1
        invariant iteration <= iterations ==> spec == Iterate(s, mentions, iterations, iteration, oldMessages.messages, prevScores)
        invariant iteration > iterations && iteration > 1 ==> spec == Ok(oldMessages.messages)
        decreases iterations - iteration
      {
        var step := SweepAndScore(iteration, oldMessages, prevScores);
        if step.Err? {
          return Err(step.error);
        }
        newMessages := step.value.0;
        if step.value.2 {
          break;
        }
        oldMessages := newMessages;
        prevScores := step.value.1;
        iteration := iteration + 1;
      }
      assert iterations >= 1 ==> (newMessages != null && spec == Ok(newMessages.messages) &&
        SameTotals(newMessages.messages, map[], newMessages.cache, senders));
      assert iterations < 1 ==> newMessages == null;
      ghost var state: MessagesState := if newMessages == null then None else Some((newMessages.messages, map[]));
      if newMessages != null {
        SameTotalsScoring(s, newMessages.messages, map[], newMessages.cache);
      }
      var sol := scorer.ComputeSolution(newMessages);
      if sol.Err? {
        return Err(sol.error);
      }
      SolutionUpToPuts(s, state, |s.mentions|);
      solution := Some(sol.value);
      return Ok(());
    }

    /** getSolutionAnnotations: one annotation per solved mention; before any solution, a null dereference. */
    method GetSolutionAnnotations(filename: string) returns (r: Result<set<Annotation>>)
      requires Valid()
      ensures solution.None? ==> r == Err(NullPointer)
      ensures solution.Some? ==> r == Ok(AnnotationsOf(solution.value, filename))
    {
      if solution.None? {
        return Err(NullPointer);
      }
      var annotations := AnnotationsFor(solution.value, filename);
      return Ok(annotations);
    }
  }
}
