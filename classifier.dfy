/**
 * The verdict classifier `compare_results` (llm4spi/basicEvaluate.py, and the
 * textually identical one in llm4spi/evaluation.py): it compares the outputs of
 * the trusted reference predicate with the normalised outputs of a candidate
 * predicate on the same test cases and returns one of five verdicts.
 */
module Classifier {

  /** The five judgement strings 'accepted', 'too_strong', 'too_weak', 'rejected', 'failed'. */
  datatype Verdict = Accepted | TooStrong | TooWeak | Rejected | Failed

  /**
   * What one test case yields for a candidate after normalisation:
   * a boolean, `None`, the string "failed" (crash or timeout), the string
   * "not a boolean value", or some other returned value (identified by an
   * opaque tag), which only the older evaluator lets through.
   */
  datatype Prediction = B(b: bool) | NoneP | FailedStr | NotBool | Other(tag: nat)

  function Min(a: int, b: int): int { if a <= b then a else b }

  /** Python's `zip`: the pairs up to the length of the shorter list. */
  function Zip(e: seq<bool>, p: seq<Prediction>): (z: seq<(bool, Prediction)>)
    ensures |z| == Min(|e|, |p|)
  {
    seq(Min(|e|, |p|), i requires 0 <= i < Min(|e|, |p|) => (e[i], p[i]))
  }

  /**
   * Zipping concatenated suites pairs each suite's own cases: when the
   * first parts are aligned, `zip` distributes over `+`.
   */
  lemma ZipAppend(e1: seq<bool>, e2: seq<bool>, p1: seq<Prediction>, p2: seq<Prediction>)
    requires |e1| == |p1|
    ensures Zip(e1 + e2, p1 + p2) == Zip(e1, p1) + Zip(e2, p2)
  {
  }

  /** The comprehension `[(e, p) for (e, p) in zz if p != None]`. */
  function DropNone(zs: seq<(bool, Prediction)>): (r: seq<(bool, Prediction)>)
    ensures |r| <= |zs|
  {
    if zs == [] then []
    else (if zs[0].1 == NoneP then [] else [zs[0]]) + DropNone(zs[1..])
  }

  function Firsts(zs: seq<(bool, Prediction)>): (e: seq<bool>)
    ensures |e| == |zs| && forall i :: 0 <= i < |zs| ==> e[i] == zs[i].0
  {
    seq(|zs|, i requires 0 <= i < |zs| => zs[i].0)
  }

  function Seconds(zs: seq<(bool, Prediction)>): (p: seq<Prediction>)
    ensures |p| == |zs| && forall i :: 0 <= i < |zs| ==> p[i] == zs[i].1
  {
    seq(|zs|, i requires 0 <= i < |zs| => zs[i].1)
  }

  /** No prediction is "failed" or of a type other than bool. */
  predicate WellTyped(p: seq<Prediction>) {
    forall i :: 0 <= i < |p| ==> p[i].B?
  }

  /** Python's list equality `expected == predicted` on booleans. */
  predicate SameValues(e: seq<bool>, p: seq<Prediction>) {
    |e| == |p| && forall i :: 0 <= i < |p| ==> p[i] == B(e[i])
  }

  /** Some zipped pair has the reference true and the candidate false. */
  predicate AnyFalseNegative(e: seq<bool>, p: seq<Prediction>) {
    exists i :: 0 <= i < Min(|e|, |p|) && e[i] && p[i] == B(false)
  }

  /** Some zipped pair has the reference false and the candidate true. */
  predicate AnyFalsePositive(e: seq<bool>, p: seq<Prediction>) {
    exists i :: 0 <= i < Min(|e|, |p|) && !e[i] && p[i] == B(true)
  }

  /** The judgement on the (possibly filtered) lists, in the source's precedence order. */
  function Judge(e: seq<bool>, p: seq<Prediction>): Verdict {
    if !WellTyped(p) then Failed
    else if SameValues(e, p) then Accepted
    else if AnyFalseNegative(e, p) && AnyFalsePositive(e, p) then Rejected
    else if AnyFalseNegative(e, p) then TooStrong
    else if AnyFalsePositive(e, p) then TooWeak
    else Failed
  }

  /** `compare_results(expected, predicted)` with the ignore-None flag as a parameter. */
  function Classify(ignoreNone: bool, expected: seq<bool>, predicted: seq<Prediction>): Verdict {
    if ignoreNone then
      var kept := DropNone(Zip(expected, predicted));
      if |kept| == 0 then Failed else Judge(Firsts(kept), Seconds(kept))
    else
      Judge(expected, predicted)
  }

  /** The source's algorithm: filter, type check, equality, then one pass setting two flags. */
  method CompareResults(ignoreNone: bool, expected: seq<bool>, predicted: seq<Prediction>)
    returns (verdict: Verdict)
    ensures verdict == Classify(ignoreNone, expected, predicted)
  {
    var e, p := expected, predicted;
    if ignoreNone {
      var kept := DropNone(Zip(expected, predicted));
      if |kept| == 0 {
        return Failed;
      }
      e, p := Firsts(kept), Seconds(kept);
    }
    if !WellTyped(p) {
      return Failed;
    }
    if SameValues(e, p) {
      return Accepted;
    }
    var anyFalseNegative, anyFalsePositive := false, false;
    var i := 0;
    while i < Min(|e|, |p|)
      invariant 0 <= i <= Min(|e|, |p|)
      invariant anyFalseNegative <==> exists j :: 0 <= j < i && e[j] && p[j] == B(false)
      invariant anyFalsePositive <==> exists j :: 0 <= j < i && !e[j] && p[j] == B(true)
    {
      anyFalseNegative := anyFalseNegative || (e[i] && !p[i].b);
      anyFalsePositive := anyFalsePositive || (!e[i] && p[i].b);
      i := i + 1;
    }
    if anyFalseNegative && anyFalsePositive {
      verdict := Rejected;
    } else if anyFalseNegative {
      verdict := TooStrong;
    } else if anyFalsePositive {
      verdict := TooWeak;
    } else {
      verdict := Failed;
    }
  }

  // ---------------------------------------------------------------------------
  // The classification stated over the positions of the original lists
  // ---------------------------------------------------------------------------

  /** Position i takes part in the judgement: it is zipped and, under the flag, not an abstention. */
  predicate Judged(ignoreNone: bool, e: seq<bool>, p: seq<Prediction>, i: int) {
    0 <= i < |e| && i < |p| && !(ignoreNone && p[i] == NoneP)
  }

  ghost predicate AllJudgedBool(ignoreNone: bool, e: seq<bool>, p: seq<Prediction>) {
    forall i :: Judged(ignoreNone, e, p, i) ==> p[i].B?
  }

  ghost predicate SomeJudged(ignoreNone: bool, e: seq<bool>, p: seq<Prediction>) {
    exists i :: Judged(ignoreNone, e, p, i)
  }

  /** A judged false negative: the reference accepts, the candidate rejects. */
  ghost predicate Misses(ignoreNone: bool, e: seq<bool>, p: seq<Prediction>) {
    exists i :: Judged(ignoreNone, e, p, i) && e[i] && p[i] == B(false)
  }

  /** A judged false positive: the reference rejects, the candidate accepts. */
  ghost predicate Overshoots(ignoreNone: bool, e: seq<bool>, p: seq<Prediction>) {
    exists i :: Judged(ignoreNone, e, p, i) && !e[i] && p[i] == B(true)
  }

  lemma {:induction false} DropNoneMembers(zs: seq<(bool, Prediction)>)
    ensures forall x :: x in DropNone(zs) <==> x in zs && x.1 != NoneP
  {
    if zs != [] {
      DropNoneMembers(zs[1..]);
      assert zs == [zs[0]] + zs[1..];
    }
  }

  /**
   * The ignore-None filter removes each (expected, predicted) pair whose
   * prediction is None, as a whole, and keeps the other pairs in their order:
   * it distributes over concatenation, and on one pair it keeps the pair
   * exactly when its prediction is not None.
   */
  lemma {:induction false} DropNoneKeepsOrder(a: seq<(bool, Prediction)>, b: seq<(bool, Prediction)>, x: (bool, Prediction))
    ensures DropNone(a + b) == DropNone(a) + DropNone(b)
    ensures DropNone([x]) == if x.1 == NoneP then [] else [x]
  {
    assert [x][1..] == [];
    if a != [] {
      assert (a + b)[1..] == a[1..] + b;
      DropNoneKeepsOrder(a[1..], b, x);
    } else {
      assert a + b == b;
    }
  }

  /** The filtered pairs are exactly the non-None pairs of the zipped lists. */
  lemma KeptPairs(e: seq<bool>, p: seq<Prediction>)
    requires |e| == |p|
    ensures forall x :: x in DropNone(Zip(e, p)) <==>
      x.1 != NoneP && exists i :: 0 <= i < |e| && e[i] == x.0 && p[i] == x.1
  {
    var z := Zip(e, p);
    DropNoneMembers(z);
    forall x | x in z ensures exists i :: 0 <= i < |e| && e[i] == x.0 && p[i] == x.1 {
      var i :| 0 <= i < |z| && z[i] == x;
    }
    forall x: (bool, Prediction) | x.1 != NoneP && exists i :: 0 <= i < |e| && e[i] == x.0 && p[i] == x.1
      ensures x in z
    {
      var i :| 0 <= i < |e| && e[i] == x.0 && p[i] == x.1;
      assert z[i] == x;
    }
  }

  /** Under the flag, nothing is left after filtering exactly when nothing is judged. */
  lemma TransferEmpty(e: seq<bool>, p: seq<Prediction>)
    requires |e| == |p|
    ensures |DropNone(Zip(e, p))| == 0 <==> !SomeJudged(true, e, p)
  {
    var kept := DropNone(Zip(e, p));
    KeptPairs(e, p);
    if SomeJudged(true, e, p) {
      var i :| Judged(true, e, p, i);
      assert (e[i], p[i]) in kept;
    }
    if |kept| != 0 {
      assert kept[0] in kept;
      var i :| 0 <= i < |e| && e[i] == kept[0].0 && p[i] == kept[0].1;
      assert Judged(true, e, p, i);
    }
  }

  /** Under the flag, the filtered predictions are all boolean exactly when the judged ones are. */
  lemma TransferTyped(e: seq<bool>, p: seq<Prediction>)
    requires |e| == |p|
    ensures WellTyped(Seconds(DropNone(Zip(e, p)))) <==> AllJudgedBool(true, e, p)
  {
    var kept := DropNone(Zip(e, p));
    var p' := Seconds(kept);
    KeptPairs(e, p);
    if WellTyped(p') {
      forall i | Judged(true, e, p, i) ensures p[i].B? {
        assert (e[i], p[i]) in kept;
        var j :| 0 <= j < |kept| && kept[j] == (e[i], p[i]);
        assert p'[j] == p[i];
      }
    }
    if AllJudgedBool(true, e, p) {
      forall j | 0 <= j < |p'| ensures p'[j].B? {
        assert kept[j] in kept;
      }
    }
  }

  /** Under the flag, a given (expected, predicted) pair survives filtering exactly when it occurs judged. */
  lemma TransferPair(e: seq<bool>, p: seq<Prediction>, x: bool, y: bool)
    requires |e| == |p|
    ensures (exists j :: 0 <= j < |DropNone(Zip(e, p))| &&
               Firsts(DropNone(Zip(e, p)))[j] == x && Seconds(DropNone(Zip(e, p)))[j] == B(y))
        <==> (exists i :: Judged(true, e, p, i) && e[i] == x && p[i] == B(y))
  {
    TransferPairKept(e, p, x, y);
    TransferPairJudged(e, p, x, y);
  }

  lemma TransferPairKept(e: seq<bool>, p: seq<Prediction>, x: bool, y: bool)
    requires |e| == |p|
    ensures (exists j :: 0 <= j < |DropNone(Zip(e, p))| &&
               Firsts(DropNone(Zip(e, p)))[j] == x && Seconds(DropNone(Zip(e, p)))[j] == B(y))
        ==> (exists i :: Judged(true, e, p, i) && e[i] == x && p[i] == B(y))
  {
    var kept := DropNone(Zip(e, p));
    var e', p' := Firsts(kept), Seconds(kept);
    KeptPairs(e, p);
    if exists j :: 0 <= j < |kept| && e'[j] == x && p'[j] == B(y) {
      var j :| 0 <= j < |kept| && e'[j] == x && p'[j] == B(y);
      assert kept[j] in kept;
    }
  }

  lemma TransferPairJudged(e: seq<bool>, p: seq<Prediction>, x: bool, y: bool)
    requires |e| == |p|
    ensures (exists i :: Judged(true, e, p, i) && e[i] == x && p[i] == B(y))
        ==> (exists j :: 0 <= j < |DropNone(Zip(e, p))| &&
               Firsts(DropNone(Zip(e, p)))[j] == x && Seconds(DropNone(Zip(e, p)))[j] == B(y))
  {
    var kept := DropNone(Zip(e, p));
    var e', p' := Firsts(kept), Seconds(kept);
    KeptPairs(e, p);
    if exists i :: Judged(true, e, p, i) && e[i] == x && p[i] == B(y) {
      var i :| Judged(true, e, p, i) && e[i] == x && p[i] == B(y);
      assert (x, B(y)) in kept;
      var j :| 0 <= j < |kept| && kept[j] == (x, B(y));
      assert e'[j] == x && p'[j] == B(y);
    }
  }

  /** What the ignore-None filter does to each ingredient of the judgement. */
  lemma Transfer(e: seq<bool>, p: seq<Prediction>)
    requires |e| == |p|
    ensures var kept := DropNone(Zip(e, p));
      && (|kept| == 0 <==> !SomeJudged(true, e, p))
      && (WellTyped(Seconds(kept)) <==> AllJudgedBool(true, e, p))
      && (AnyFalseNegative(Firsts(kept), Seconds(kept)) <==> Misses(true, e, p))
      && (AnyFalsePositive(Firsts(kept), Seconds(kept)) <==> Overshoots(true, e, p))
  {
    TransferEmpty(e, p);
    TransferTyped(e, p);
    TransferPair(e, p, true, false);
    TransferPair(e, p, false, true);
  }

  /** The judgement on two equal-length lists, case by case. */
  lemma JudgeCases(e: seq<bool>, p: seq<Prediction>)
    requires |e| == |p|
    ensures Judge(e, p) == Failed <==> !WellTyped(p)
    ensures Judge(e, p) == Accepted <==>
      WellTyped(p) && !AnyFalseNegative(e, p) && !AnyFalsePositive(e, p)
    ensures Judge(e, p) == TooStrong <==>
      WellTyped(p) && AnyFalseNegative(e, p) && !AnyFalsePositive(e, p)
    ensures Judge(e, p) == TooWeak <==>
      WellTyped(p) && !AnyFalseNegative(e, p) && AnyFalsePositive(e, p)
    ensures Judge(e, p) == Rejected <==>
      WellTyped(p) && AnyFalseNegative(e, p) && AnyFalsePositive(e, p)
  {
    if WellTyped(p) {
      if SameValues(e, p) {
        assert !AnyFalseNegative(e, p) && !AnyFalsePositive(e, p);
      } else {
        var i :| 0 <= i < |p| && p[i] != B(e[i]);
        if e[i] {
          assert e[i] && p[i] == B(false);
        } else {
          assert !e[i] && p[i] == B(true);
        }
      }
    }
  }

  /**
   * The complete meaning of `compare_results` on equal-length lists:
   * `failed` exactly when a judged prediction is not a boolean or, under the
   * flag, every prediction is None; `accepted` when every judged prediction
   * agrees with the reference; `too_strong` when the candidate implies the
   * reference on every judged pair and some pair has e and not p; `too_weak`
   * symmetrically; `rejected` when both a false negative and a false positive
   * exist. In particular, with every judged prediction boolean and something
   * judged, the final `failed` is unreachable.
   */
  lemma ClassifyCases(ignoreNone: bool, e: seq<bool>, p: seq<Prediction>)
    requires |e| == |p|
    ensures Classify(ignoreNone, e, p) == Failed <==>
      !AllJudgedBool(ignoreNone, e, p) || (ignoreNone && !SomeJudged(ignoreNone, e, p))
    ensures Classify(ignoreNone, e, p) == Accepted <==>
      && AllJudgedBool(ignoreNone, e, p) && (ignoreNone ==> SomeJudged(ignoreNone, e, p))
      && !Misses(ignoreNone, e, p) && !Overshoots(ignoreNone, e, p)
    ensures Classify(ignoreNone, e, p) == TooStrong <==>
      AllJudgedBool(ignoreNone, e, p) && Misses(ignoreNone, e, p) && !Overshoots(ignoreNone, e, p)
    ensures Classify(ignoreNone, e, p) == TooWeak <==>
      AllJudgedBool(ignoreNone, e, p) && !Misses(ignoreNone, e, p) && Overshoots(ignoreNone, e, p)
    ensures Classify(ignoreNone, e, p) == Rejected <==>
      AllJudgedBool(ignoreNone, e, p) && Misses(ignoreNone, e, p) && Overshoots(ignoreNone, e, p)
  {
    if ignoreNone {
      var kept := DropNone(Zip(e, p));
      Transfer(e, p);
      if |kept| != 0 {
        JudgeCases(Firsts(kept), Seconds(kept));
      }
    } else {
      JudgeCases(e, p);
      assert AllJudgedBool(false, e, p) <==> WellTyped(p);
      assert Misses(false, e, p) <==> AnyFalseNegative(e, p);
      assert Overshoots(false, e, p) <==> AnyFalsePositive(e, p);
    }
  }

  /** A judged "failed" or non-boolean prediction makes the verdict `failed`. */
  lemma ClassifyBadPredictionFails(ignoreNone: bool, e: seq<bool>, p: seq<Prediction>, i: int)
    requires |e| == |p| && 0 <= i < |p|
    requires !p[i].B? && !(ignoreNone && p[i] == NoneP)
    ensures Classify(ignoreNone, e, p) == Failed
  {
    ClassifyCases(ignoreNone, e, p);
    assert Judged(ignoreNone, e, p, i);
  }

  /** With the flag off, a single None prediction makes the verdict `failed`. */
  lemma ClassifyNoneFailsWithoutFlag(e: seq<bool>, p: seq<Prediction>)
    requires |e| == |p| && NoneP in p
    ensures Classify(false, e, p) == Failed
  {
    var i :| 0 <= i < |p| && p[i] == NoneP;
    ClassifyBadPredictionFails(false, e, p, i);
  }

  /** With the flag on, predictions that are all None give `failed`. */
  lemma ClassifyAllNoneFails(e: seq<bool>, p: seq<Prediction>)
    requires |e| == |p|
    requires forall i :: 0 <= i < |p| ==> p[i] == NoneP
    ensures Classify(true, e, p) == Failed
  {
    ClassifyCases(true, e, p);
  }

  /**
   * Equal lists are accepted, except under the flag when they are empty:
   * then nothing is left after filtering and the verdict is `failed`.
   */
  lemma ClassifyEqualAccepted(ignoreNone: bool, e: seq<bool>, p: seq<Prediction>)
    requires SameValues(e, p)
    ensures Classify(ignoreNone, e, p) == if ignoreNone && |e| == 0 then Failed else Accepted
  {
    ClassifyCases(ignoreNone, e, p);
    if ignoreNone && |e| != 0 {
      assert Judged(true, e, p, 0);
    }
  }

  /**
   * Predictions of which every judged one agrees in kind (boolean value,
   * None, or some non-boolean) get the same verdict: which non-boolean value
   * a candidate produced never matters.
   */
  predicate SameKind(a: Prediction, b: Prediction) {
    a == b || (!a.B? && a != NoneP && !b.B? && b != NoneP)
  }

  lemma ClassifyRespectsKind(ignoreNone: bool, e: seq<bool>, p1: seq<Prediction>, p2: seq<Prediction>)
    requires |e| == |p1| == |p2|
    requires forall i :: 0 <= i < |p1| ==> SameKind(p1[i], p2[i])
    ensures Classify(ignoreNone, e, p1) == Classify(ignoreNone, e, p2)
  {
    ClassifyCases(ignoreNone, e, p1);
    ClassifyCases(ignoreNone, e, p2);
    assert forall i :: Judged(ignoreNone, e, p1, i) <==> Judged(ignoreNone, e, p2, i);
    assert AllJudgedBool(ignoreNone, e, p1) <==> AllJudgedBool(ignoreNone, e, p2);
    assert SomeJudged(ignoreNone, e, p1) ==> SomeJudged(ignoreNone, e, p2);
    assert SomeJudged(ignoreNone, e, p2) ==> SomeJudged(ignoreNone, e, p1);
    assert Misses(ignoreNone, e, p1) <==> Misses(ignoreNone, e, p2);
    assert Overshoots(ignoreNone, e, p1) <==> Overshoots(ignoreNone, e, p2);
  }

  /**
   * With the flag off, acceptance on a concatenation of aligned lists implies
   * acceptance on each part.
   */
  lemma AcceptedParts(e1: seq<bool>, e2: seq<bool>, p1: seq<Prediction>, p2: seq<Prediction>)
    requires |e1| == |p1| && |e2| == |p2|
    requires Classify(false, e1 + e2, p1 + p2) == Accepted
    ensures Classify(false, e1, p1) == Accepted && Classify(false, e2, p2) == Accepted
  {
    assert SameValues(e1 + e2, p1 + p2);
    assert forall i :: 0 <= i < |p1| ==> p1[i] == (p1 + p2)[i] && e1[i] == (e1 + e2)[i];
    assert forall i :: 0 <= i < |p2| ==> p2[i] == (p1 + p2)[|p1| + i] && e2[i] == (e1 + e2)[|e1| + i];
    ClassifyEqualAccepted(false, e1, p1);
    ClassifyEqualAccepted(false, e2, p2);
  }

  /**
   * With the flag on, acceptance does not carry over to a prefix: the prefix
   * may consist of abstentions only.
   */
  lemma AcceptedPrefixNeedsFlagOff()
    ensures Classify(true, [true] + [true], [NoneP] + [B(true)]) == Accepted
    ensures Classify(true, [true], [NoneP]) == Failed
  {
    assert [true] + [true] == [true, true];
    assert [NoneP] + [B(true)] == [NoneP, B(true)];
    var z := Zip([true, true], [NoneP, B(true)]);
    assert z == [(true, NoneP), (true, B(true))];
    assert DropNone(z[1..]) == [(true, B(true))] + DropNone(z[2..]);
    assert DropNone(z) == [(true, B(true))];
    assert Zip([true], [NoneP]) == [(true, NoneP)];
    assert DropNone([(true, NoneP)]) == [];
  }

  /**
   * `zip` truncates: typed predictions that agree with a proper prefix of
   * the expected list have neither a false negative nor a false positive,
   * and reach the final `failed`.
   */
  lemma ClassifyShortPredictionsFail(e: seq<bool>, p: seq<Prediction>)
    requires |p| < |e| && SameValues(e[..|p|], p)
    ensures Classify(false, e, p) == Failed
  {
    assert forall i :: 0 <= i < |p| ==> p[i] == B(e[i]);
  }

  /** The worked examples of the classifier's documentation. */
  lemma ClassifyExampleTooStrong()
    ensures Classify(false, [true, true, false], [B(true), B(false), B(false)]) == TooStrong
  {
    ClassifyCases(false, [true, true, false], [B(true), B(false), B(false)]);
    assert Judged(false, [true, true, false], [B(true), B(false), B(false)], 1);
  }

  lemma ClassifyExampleTooWeak()
    ensures Classify(false, [true, false], [B(true), B(true)]) == TooWeak
  {
    ClassifyCases(false, [true, false], [B(true), B(true)]);
    assert Judged(false, [true, false], [B(true), B(true)], 1);
  }

  lemma ClassifyExampleRejected()
    ensures Classify(false, [true, false], [B(false), B(true)]) == Rejected
  {
    ClassifyCases(false, [true, false], [B(false), B(true)]);
    assert Judged(false, [true, false], [B(false), B(true)], 0);
    assert Judged(false, [true, false], [B(false), B(true)], 1);
  }

  lemma ClassifyExampleAllNone()
    ensures Classify(true, [true, false], [NoneP, NoneP]) == Failed
  {
    ClassifyAllNoneFails([true, false], [NoneP, NoneP]);
  }

}
