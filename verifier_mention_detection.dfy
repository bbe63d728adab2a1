/**
 * Evaluation of mention detection against name annotations of the same file. A mention and
 * an annotation match when the mention's original n-gram is the annotation's name and the
 * annotation's entity is among the mention's candidates. Mentions that match nothing are
 * wrong (counted once per original n-gram); annotations that some mention matches are good,
 * the others not found.
 */
module VerifierMentionDetections {
  import opened OrderedMaps
  import opened Mentions
  import opened Annotations

  predicate Matches(mention: MentionInfo, annotation: NameAnnotation)
  {
    annotation.name == mention.originalNgram && annotation.entity in mention.candidates.values
  }

  /** searchMention: whether some annotation of the collection matches the mention. */
  function SearchMention(mention: MentionInfo, collection: seq<NameAnnotation>): (r: bool)
    ensures r <==> exists i :: 0 <= i < |collection| && Matches(mention, collection[i])
  {
    if |collection| == 0 then false
    else Matches(mention, collection[0]) || SearchMention(mention, collection[1..])
  }

  /** searchNameAnnotation: whether some mention matches the annotation. */
  function SearchNameAnnotation(annotation: NameAnnotation, mentions: seq<MentionInfo>): (r: bool)
    ensures r <==> exists i :: 0 <= i < |mentions| && Matches(mentions[i], annotation)
  {
    if |mentions| == 0 then false
    else Matches(mentions[0], annotation) || SearchNameAnnotation(annotation, mentions[1..])
  }

  /** The original n-grams of the mentions that match no annotation. */
  function WrongMentions(mentions: seq<MentionInfo>, groundTruth: seq<NameAnnotation>): set<string>
  {
    set i | 0 <= i < |mentions| && !SearchMention(mentions[i], groundTruth) :: mentions[i].originalNgram
  }

  /** The annotations some mention matches, in ground-truth order. */
  function Found(groundTruth: seq<NameAnnotation>, mentions: seq<MentionInfo>): (r: seq<NameAnnotation>)
    ensures |r| <= |groundTruth|
    ensures forall k :: 0 <= k < |r| ==> r[k] in groundTruth && SearchNameAnnotation(r[k], mentions)
  {
    if |groundTruth| == 0 then []
    else
      var last := groundTruth[|groundTruth| - 1];
      Found(groundTruth[..|groundTruth| - 1], mentions) + (if SearchNameAnnotation(last, mentions) then [last] else [])
  }

  /** The annotations no mention matches, in ground-truth order. */
  function NotFound(groundTruth: seq<NameAnnotation>, mentions: seq<MentionInfo>): seq<NameAnnotation>
  {
    if |groundTruth| == 0 then []
    else
      var last := groundTruth[|groundTruth| - 1];
      NotFound(groundTruth[..|groundTruth| - 1], mentions) + (if SearchNameAnnotation(last, mentions) then [] else [last])
  }

  /** precision: good over good plus wrong, or 1.0 when both are zero. */
  function Precision(good: nat, wrong: nat): (r: real)
    ensures 0.0 <= r <= 1.0
    ensures r == 1.0 <==> wrong == 0
  {
    var found := good + wrong;
    if found > 0 then RatioBounds(good, found); good as real / found as real else 1.0
  }

  /** recall: good over the ground-truth size, or 1.0 for an empty ground truth. */
  function Recall(good: nat, total: nat): (r: real)
    requires good <= total
    ensures 0.0 <= r <= 1.0
    ensures r == 1.0 <==> good == total
  {
    if total > 0 then RatioBounds(good, total); good as real / total as real else 1.0
  }

  lemma RatioBounds(a: nat, b: nat)
    requires 0 < b && a <= b
    ensures 0.0 <= a as real / b as real <= 1.0
    ensures a as real / b as real == 1.0 <==> a == b
  {
    assert a as real <= b as real;
  }

  class VerifierMentionDetection {
    var precision: real
    var recall: real
    var goodAnnotations: seq<NameAnnotation>
    var wrongMentions: set<string>
    var notFoundAnnotations: seq<NameAnnotation>

    constructor ()
      ensures goodAnnotations == [] && wrongMentions == {} && notFoundAnnotations == []
      ensures precision == 0.0 && recall == 0.0
    {
      precision := 0.0;
      recall := 0.0;
      goodAnnotations := [];
      wrongMentions := {};
      notFoundAnnotations := [];
    }

    /**
     * computeResults: the wrong n-grams join the set kept from earlier calls, the annotations
     * are appended to the good or the not-found ones, and precision counts this call's good
     * annotations against every wrong n-gram the instance holds.
     */
    method ComputeResults(mentions: seq<MentionInfo>, groundTruth: seq<NameAnnotation>)
      modifies this
      ensures wrongMentions == old(wrongMentions) + WrongMentions(mentions, groundTruth)
      ensures goodAnnotations == old(goodAnnotations) + Found(groundTruth, mentions)
      ensures notFoundAnnotations == old(notFoundAnnotations) + NotFound(groundTruth, mentions)
      ensures precision == Precision(|Found(groundTruth, mentions)|, |wrongMentions|)
      ensures recall == Recall(|Found(groundTruth, mentions)|, |groundTruth|)
    {
      var wrong := CollectWrong(wrongMentions, mentions, groundTruth);
      wrongMentions := wrong;
      var good, notFound, count := SplitGroundTruth(groundTruth, mentions);
      goodAnnotations := goodAnnotations + good;
      notFoundAnnotations := notFoundAnnotations + notFound;
      FoundCount(groundTruth, mentions);
      precision := Precision(count, |wrongMentions|);
      recall := Recall(count, |groundTruth|);
    }
  }

  /** The first loop of computeResults: each mention matching no annotation adds its original n-gram. */
  method CollectWrong(wrong0: set<string>, mentions: seq<MentionInfo>, groundTruth: seq<NameAnnotation>) returns (wrong: set<string>)
    ensures wrong == wrong0 + WrongMentions(mentions, groundTruth)
  {
    wrong := wrong0;
    for k := 0 to |mentions|
      invariant wrong == wrong0 + WrongMentions(mentions[..k], groundTruth)
    {
      WrongMentionsStep(mentions, k, groundTruth);
      if mentions[k].originalNgram !in wrong && !SearchMention(mentions[k], groundTruth) {
        wrong := wrong + {mentions[k].originalNgram};
      }
    }
    assert mentions[..|mentions|] == mentions;
  }

  lemma WrongMentionsStep(mentions: seq<MentionInfo>, k: nat, groundTruth: seq<NameAnnotation>)
    requires k < |mentions|
    ensures WrongMentions(mentions[..k + 1], groundTruth) ==
      WrongMentions(mentions[..k], groundTruth) +
      (if SearchMention(mentions[k], groundTruth) then {} else {mentions[k].originalNgram})
  {
    var prefix := mentions[..k + 1];
    assert forall i :: 0 <= i < k ==> prefix[i] == mentions[..k][i];
    assert prefix[k] == mentions[k];
  }

  /** The second loop of computeResults: each annotation goes to the good or the not-found ones, and the good ones are counted. */
  method SplitGroundTruth(groundTruth: seq<NameAnnotation>, mentions: seq<MentionInfo>) returns (good: seq<NameAnnotation>, notFound: seq<NameAnnotation>, count: nat)
    ensures good == Found(groundTruth, mentions) && notFound == NotFound(groundTruth, mentions)
    ensures count == |good|
  {
    good, notFound, count := [], [], 0;
    for i := 0 to |groundTruth|
      invariant good == Found(groundTruth[..i], mentions) && notFound == NotFound(groundTruth[..i], mentions)
      invariant count == |good|
    {
      assert groundTruth[..i + 1][..i] == groundTruth[..i];
      if SearchNameAnnotation(groundTruth[i], mentions) {
        count := count + 1;
        good := good + [groundTruth[i]];
      } else {
        notFound := notFound + [groundTruth[i]];
      }
    }
    assert groundTruth[..|groundTruth|] == groundTruth;
  }

  // ---------------------------------------------------------------------------
  // Properties.

  /** Every ground-truth annotation lands in exactly one of good and not found. */
  lemma {:induction false} FoundCount(groundTruth: seq<NameAnnotation>, mentions: seq<MentionInfo>)
    ensures |Found(groundTruth, mentions)| + |NotFound(groundTruth, mentions)| == |groundTruth|
  {
    if |groundTruth| > 0 {
      FoundCount(groundTruth[..|groundTruth| - 1], mentions);
    }
  }

  /** An annotation is good exactly when it is in the ground truth and some mention matches it, and not found exactly when none does. */
  lemma {:induction false} FoundMeaning(groundTruth: seq<NameAnnotation>, mentions: seq<MentionInfo>, a: NameAnnotation)
    ensures a in Found(groundTruth, mentions) <==> a in groundTruth && exists i :: 0 <= i < |mentions| && Matches(mentions[i], a)
    ensures a in NotFound(groundTruth, mentions) <==> a in groundTruth && forall i :: 0 <= i < |mentions| ==> !Matches(mentions[i], a)
  {
    if |groundTruth| > 0 {
      FoundMeaning(groundTruth[..|groundTruth| - 1], mentions, a);
      assert groundTruth == groundTruth[..|groundTruth| - 1] + [groundTruth[|groundTruth| - 1]];
    }
  }

  /** An n-gram is wrong exactly when some mention has it and matches no annotation. */
  lemma WrongMentionsMeaning(mentions: seq<MentionInfo>, groundTruth: seq<NameAnnotation>, ngram: string)
    ensures ngram in WrongMentions(mentions, groundTruth) <==>
      exists i :: 0 <= i < |mentions| && mentions[i].originalNgram == ngram &&
        forall j :: 0 <= j < |groundTruth| ==> !Matches(mentions[i], groundTruth[j])
  {
  }

  /**
   * The two searches see the same relation from either side: a mention that matches a
   * ground-truth annotation is never wrong, so a good annotation is matched by a mention with
   * its name that is not wrong.
   */
  lemma SearchesAgree(mentions: seq<MentionInfo>, groundTruth: seq<NameAnnotation>, j: nat)
    requires j < |groundTruth|
    ensures SearchNameAnnotation(groundTruth[j], mentions) ==>
      exists i :: 0 <= i < |mentions| && SearchMention(mentions[i], groundTruth) && mentions[i].originalNgram == groundTruth[j].name
    ensures forall i :: 0 <= i < |mentions| && Matches(mentions[i], groundTruth[j]) ==> SearchMention(mentions[i], groundTruth)
  {
    if SearchNameAnnotation(groundTruth[j], mentions) {
      var i :| 0 <= i < |mentions| && Matches(mentions[i], groundTruth[j]);
      assert SearchMention(mentions[i], groundTruth);
    }
  }

  /** After one call on a fresh instance, precision and recall lie in [0, 1]; precision is 1 exactly when no mention is wrong, recall exactly when no annotation is missed. */
  lemma FreshRatios(mentions: seq<MentionInfo>, groundTruth: seq<NameAnnotation>)
    ensures var good := |Found(groundTruth, mentions)|;
      var p := Precision(good, |WrongMentions(mentions, groundTruth)|);
      var r := Recall(good, |groundTruth|);
      0.0 <= p <= 1.0 && 0.0 <= r <= 1.0 &&
      (p == 1.0 <==> forall i :: 0 <= i < |mentions| ==> SearchMention(mentions[i], groundTruth)) &&
      (r == 1.0 <==> |NotFound(groundTruth, mentions)| == 0)
  {
    FoundCount(groundTruth, mentions);
    var wrong := WrongMentions(mentions, groundTruth);
    if exists i :: 0 <= i < |mentions| && !SearchMention(mentions[i], groundTruth) {
      var i :| 0 <= i < |mentions| && !SearchMention(mentions[i], groundTruth);
      assert mentions[i].originalNgram in wrong;
    }
  }
}
