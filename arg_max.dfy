/**
 * The "best candidate" loops of the ranking code: candidates are visited in iteration order
 * and one replaces the best so far when its score is strictly greater, so the first of
 * several maxima wins.
 */
module ArgMaxes {
  /** One step: take the candidate if nothing was taken yet (when firstWins) or it scores strictly more. */
  function Step(best: (int, real), key: int, score: real, firstWins: bool): (int, real)
  {
    if (firstWins && best.0 == -1) || score > best.1 then (key, score) else best
  }

  /** The best (key, score) after visiting the keys in order, starting from init. */
  function Best(keys: seq<int>, score: int -> real, init: (int, real), firstWins: bool): (int, real)
  {
    if |keys| == 0 then init
    else Step(Best(keys[..|keys| - 1], score, init, firstWins), keys[|keys| - 1], score(keys[|keys| - 1]), firstWins)
  }

  /** The key at position p scores strictly more than every key before it and at least as much as every key after. */
  predicate FirstMaxAt(keys: seq<int>, score: int -> real, p: int)
  {
    0 <= p < |keys| &&
    (forall q :: 0 <= q < p ==> score(keys[q]) < score(keys[p])) &&
    (forall q :: p < q < |keys| ==> score(keys[q]) <= score(keys[p]))
  }

  /**
   * With strict replacement: the result is the first key of greatest score when that score
   * beats init's, and init itself otherwise.
   */
  lemma {:induction false} BestStrict(keys: seq<int>, score: int -> real, init: (int, real))
    ensures var r := Best(keys, score, init, false);
      r.1 >= init.1 && (forall q :: 0 <= q < |keys| ==> score(keys[q]) <= r.1) &&
      (r == init || exists p :: FirstMaxAt(keys, score, p) && r == (keys[p], score(keys[p]))) &&
      ((forall q :: 0 <= q < |keys| ==> score(keys[q]) <= init.1) ==> r == init) &&
      ((exists q :: 0 <= q < |keys| && score(keys[q]) > init.1) ==> exists p :: FirstMaxAt(keys, score, p) && r == (keys[p], score(keys[p])))
  {
    if |keys| > 0 {
      var init' := keys[..|keys| - 1];
      BestStrict(init', score, init);
      var prev := Best(init', score, init, false);
      var k := keys[|keys| - 1];
      if score(k) > prev.1 {
        assert FirstMaxAt(keys, score, |keys| - 1) by {
          forall q | 0 <= q < |keys| - 1 ensures score(keys[q]) < score(k) {
            assert keys[q] == init'[q];
          }
        }
      } else if prev != init {
        var p :| FirstMaxAt(init', score, p) && prev == (init'[p], score(init'[p]));
        assert FirstMaxAt(keys, score, p) by {
          forall q | 0 <= q < |keys| && q != p ensures q < p ==> score(keys[q]) < score(keys[p])
            ensures q > p ==> score(keys[q]) <= score(keys[p]) {
            if q < |keys| - 1 {
              assert keys[q] == init'[q];
            }
          }
        }
      } else {
        forall q | 0 <= q < |keys| ensures score(keys[q]) <= init.1 {
          if q < |keys| - 1 {
            assert keys[q] == init'[q];
          }
        }
      }
      forall q | 0 <= q < |keys| ensures score(keys[q]) <= Best(keys, score, init, false).1 {
        if q < |keys| - 1 {
          assert keys[q] == init'[q];
        }
      }
    }
  }

  /**
   * When the first candidate is always taken (and no key is the -1 sentinel), the result is
   * init only for no keys, and otherwise the first key of greatest score, whatever its sign.
   */
  lemma BestFirstWins(keys: seq<int>, score: int -> real, init: (int, real))
    requires init.0 == -1 && -1 !in keys
    ensures |keys| == 0 ==> Best(keys, score, init, true) == init
    ensures |keys| > 0 ==> exists p :: FirstMaxAt(keys, score, p) && Best(keys, score, init, true) == (keys[p], score(keys[p]))
  {
    if |keys| > 0 {
      var p := BestFirstAt(keys, score, init);
    }
  }

  /** BestFirstWins with the position of the first greatest key as the result. */
  lemma {:induction false} BestFirstAt(keys: seq<int>, score: int -> real, init: (int, real)) returns (p: nat)
    requires init.0 == -1 && -1 !in keys && |keys| > 0
    ensures FirstMaxAt(keys, score, p) && Best(keys, score, init, true) == (keys[p], score(keys[p]))
  {
    var init' := keys[..|keys| - 1];
    var k := keys[|keys| - 1];
    if |init'| == 0 {
      p := 0;
      return;
    }
    assert -1 !in init' by {
      forall q | 0 <= q < |init'| ensures init'[q] != -1 {
        assert init'[q] == keys[q];
      }
    }
    var p' := BestFirstAt(init', score, init);
    var prev := Best(init', score, init, true);
    assert prev.0 == keys[p'] != -1;
    if score(k) > prev.1 {
      p := |keys| - 1;
      forall q | 0 <= q < |keys| - 1 ensures score(keys[q]) < score(k) {
        assert keys[q] == init'[q];
      }
    } else {
      p := p';
      forall q | 0 <= q < |keys| && q != p ensures q < p ==> score(keys[q]) < score(keys[p])
        ensures q > p ==> score(keys[q]) <= score(keys[p]) {
        if q < |keys| - 1 {
          assert keys[q] == init'[q];
        }
      }
    }
  }

  /** Only the scores of the visited keys matter. */
  lemma {:induction false} BestAgree(keys: seq<int>, score1: int -> real, score2: int -> real, init: (int, real), firstWins: bool)
    requires forall q :: 0 <= q < |keys| ==> score1(keys[q]) == score2(keys[q])
    ensures Best(keys, score1, init, firstWins) == Best(keys, score2, init, firstWins)
  {
    if |keys| > 0 {
      var init' := keys[..|keys| - 1];
      forall q | 0 <= q < |init'| ensures score1(init'[q]) == score2(init'[q]) {
        assert init'[q] == keys[q];
      }
      BestAgree(init', score1, score2, init, firstWins);
    }
  }
}
