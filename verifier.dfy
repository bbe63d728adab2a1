/**
 * Evaluation of a disambiguation solution against the ground truth: the solution's
 * annotations split into correct and wrong ones, the ground truth's into found and not
 * found, and precision and recall as ratios of those counts. A Java Set is modelled by the
 * sequence its iterator walks, each element once.
 */
module Verifiers {
  import opened Annotations

  /** A double that a division of two counts can give: a number, or 0.0 / 0 = NaN. */
  datatype Double = Number(value: real) | NaN | PositiveInfinity

  /** (double) a / b on counts. */
  function Quotient(a: nat, b: nat): (r: Double)
    ensures b == 0 <==> !r.Number?
    ensures b == 0 ==> (r == NaN <==> a == 0)
    ensures 0 < b && a <= b ==> r.Number? && 0.0 <= r.value <= 1.0 && (r.value == 1.0 <==> a == b)
  {
    if b > 0 then Number(a as real / b as real)
    else if a == 0 then NaN
    else PositiveInfinity
  }

  /** The elements of s that occur in t, in the order of s. */
  function Keep<T(==)>(s: seq<T>, t: seq<T>): seq<T>
  {
    if |s| == 0 then []
    else Keep(s[..|s| - 1], t) + (if s[|s| - 1] in t then [s[|s| - 1]] else [])
  }

  /** The elements of s that do not occur in t, in the order of s. */
  function Drop<T(==)>(s: seq<T>, t: seq<T>): seq<T>
  {
    if |s| == 0 then []
    else Drop(s[..|s| - 1], t) + (if s[|s| - 1] in t then [] else [s[|s| - 1]])
  }

  predicate Distinct<T(==)>(s: seq<T>)
  {
    forall i, j :: 0 <= i < j < |s| ==> s[i] != s[j]
  }

  class Verifier {
    var precision: Double
    var recall: Double
    var correctAnnotations: seq<Annotation>
    var wrongAnnotations: seq<Annotation>
    var notFoundAnnotations: seq<Annotation>

    /** The three lists start empty; precision and recall are the default 0.0. */
    constructor ()
      ensures correctAnnotations == [] && wrongAnnotations == [] && notFoundAnnotations == []
      ensures precision == Number(0.0) && recall == Number(0.0)
    {
      precision := Number(0.0);
      recall := Number(0.0);
      correctAnnotations := [];
      wrongAnnotations := [];
      notFoundAnnotations := [];
    }

    /**
     * computeResults: the solution's annotations that are in the ground truth are appended to
     * the correct ones and the others to the wrong ones, the ground truth's annotations missing
     * from the solution to the not-found ones; the lists are never cleared. Precision and recall
     * are the correct count over the solution and over the ground truth.
     */
    method ComputeResults(solution: seq<Annotation>, groundTruth: seq<Annotation>)
      requires Distinct(solution) && Distinct(groundTruth)
      modifies this
      ensures correctAnnotations == old(correctAnnotations) + Keep(solution, groundTruth)
      ensures wrongAnnotations == old(wrongAnnotations) + Drop(solution, groundTruth)
      ensures notFoundAnnotations == old(notFoundAnnotations) + Drop(groundTruth, solution)
      ensures precision == Quotient(|Keep(solution, groundTruth)|, |solution|)
      ensures recall == Quotient(|Keep(solution, groundTruth)|, |groundTruth|)
    {
      var correct, wrong, good := SplitSolution(solution, groundTruth);
      var notFound := Missing(groundTruth, solution);
      correctAnnotations := correctAnnotations + correct;
      wrongAnnotations := wrongAnnotations + wrong;
      notFoundAnnotations := notFoundAnnotations + notFound;
      precision := Quotient(good, |solution|);
      recall := Quotient(good, |groundTruth|);
    }
  }

  /** The first loop of computeResults: each solution annotation goes to the correct or the wrong ones, and the correct ones are counted. */
  method SplitSolution(solution: seq<Annotation>, groundTruth: seq<Annotation>) returns (correct: seq<Annotation>, wrong: seq<Annotation>, good: nat)
    ensures correct == Keep(solution, groundTruth) && wrong == Drop(solution, groundTruth)
    ensures good == |correct|
  {
    correct, wrong, good := [], [], 0;
    for i := 0 to |solution|
      invariant correct == Keep(solution[..i], groundTruth) && wrong == Drop(solution[..i], groundTruth)
      invariant good == |correct|
    {
      assert solution[..i + 1][..i] == solution[..i];
      if solution[i] in groundTruth {
        good := good + 1;
        correct := correct + [solution[i]];
      } else {
        wrong := wrong + [solution[i]];
      }
    }
    assert solution[..|solution|] == solution;
  }

  /** The second loop of computeResults: the ground-truth annotations the solution lacks. */
  method Missing(groundTruth: seq<Annotation>, solution: seq<Annotation>) returns (notFound: seq<Annotation>)
    ensures notFound == Drop(groundTruth, solution)
  {
    notFound := [];
    for i := 0 to |groundTruth|
      invariant notFound == Drop(groundTruth[..i], solution)
    {
      assert groundTruth[..i + 1][..i] == groundTruth[..i];
      if groundTruth[i] !in solution {
        notFound := notFound + [groundTruth[i]];
      }
    }
    assert groundTruth[..|groundTruth|] == groundTruth;
  }

  // ---------------------------------------------------------------------------
  // Properties.

  /** An element is kept exactly when it is in both sequences, and dropped exactly when it is in the first only. */
  lemma {:induction false} KeepDropMeaning<T>(s: seq<T>, t: seq<T>, x: T)
    ensures x in Keep(s, t) <==> x in s && x in t
    ensures x in Drop(s, t) <==> x in s && x !in t
  {
    if |s| > 0 {
      KeepDropMeaning(s[..|s| - 1], t, x);
      assert s == s[..|s| - 1] + [s[|s| - 1]];
    }
  }

  /** Every element lands in exactly one of the two, so their lengths add up. */
  lemma {:induction false} KeepDropCount<T>(s: seq<T>, t: seq<T>)
    ensures |Keep(s, t)| + |Drop(s, t)| == |s|
  {
    if |s| > 0 {
      KeepDropCount(s[..|s| - 1], t);
    }
  }

  /** Of distinct elements, as many are kept as the two sequences have in common. */
  lemma {:induction false} KeepCount<T>(s: seq<T>, t: seq<T>)
    requires Distinct(s)
    ensures |Keep(s, t)| == |set x | x in s && x in t|
  {
    if |s| > 0 {
      var init, last := s[..|s| - 1], s[|s| - 1];
      assert Distinct(init);
      KeepCount(init, t);
      assert last !in init;
      assert s == init + [last];
      CommonSnoc(init, last, t);
    }
  }

  /** One more element adds itself to the common elements exactly when the other sequence has it. */
  lemma CommonSnoc<T>(init: seq<T>, last: T, t: seq<T>)
    ensures (set x | x in init + [last] && x in t) == (set x | x in init && x in t) + (if last in t then {last} else {})
  {
    forall x
      ensures x in init + [last] && x in t <==> (x in init && x in t) || (x == last && last in t)
    {
    }
  }

  /**
   * For one call on distinct solution and ground-truth annotations, every solution annotation
   * is correct or wrong, and every ground-truth annotation is correct or not found.
   */
  lemma ResultCounts(solution: seq<Annotation>, groundTruth: seq<Annotation>)
    requires Distinct(solution) && Distinct(groundTruth)
    ensures |Keep(solution, groundTruth)| + |Drop(solution, groundTruth)| == |solution|
    ensures |Keep(solution, groundTruth)| + |Drop(groundTruth, solution)| == |groundTruth|
  {
    KeepDropCount(solution, groundTruth);
    KeepDropCount(groundTruth, solution);
    KeepCount(solution, groundTruth);
    KeepCount(groundTruth, solution);
    assert (set x | x in solution && x in groundTruth) == (set x | x in groundTruth && x in solution);
  }

  /** Precision and recall lie in [0, 1] whenever their denominators are not zero, and are 1 exactly when nothing is wrong, or nothing is missed. */
  lemma ResultRatios(solution: seq<Annotation>, groundTruth: seq<Annotation>)
    requires Distinct(solution) && Distinct(groundTruth)
    ensures var p := Quotient(|Keep(solution, groundTruth)|, |solution|);
      (|solution| == 0 ==> p == NaN) &&
      (|solution| > 0 ==> p.Number? && 0.0 <= p.value <= 1.0 && (p.value == 1.0 <==> |Drop(solution, groundTruth)| == 0))
    ensures var r := Quotient(|Keep(solution, groundTruth)|, |groundTruth|);
      (|groundTruth| == 0 ==> r == NaN) &&
      (|groundTruth| > 0 ==> r.Number? && 0.0 <= r.value <= 1.0 && (r.value == 1.0 <==> |Drop(groundTruth, solution)| == 0))
  {
    ResultCounts(solution, groundTruth);
  }
}
