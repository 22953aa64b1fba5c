/**
 * Running an untrusted candidate predicate on one test case, and the
 * reference predicate on a whole suite. The invocation itself (`eval` under
 * `func_timeout`) is abstracted to the outcome it produces; the normalisers
 * are the result mappings of `try_check_condition` in both evaluators.
 */
module Invocation {
  import opened Wrappers
  import opened Classifier

  /** What a predicate call returned: a bool, `None`, or any other Python value (opaque tag). */
  datatype Value = VBool(b: bool) | VNone | VOther(tag: nat)

  /** The outcome of one bounded invocation. */
  datatype Outcome = Returned(value: Value) | Crashed | TimedOut

  /** The trusted reference predicate: whether its definition loads, and its answer per test case. */
  datatype Reference<!A> = Reference(loads: bool, run: A -> bool)

  /**
   * One candidate produced by the language model: whether its definition
   * loads, its outcome per test case, and its (opaque) relative edit distance
   * to the reference source.
   */
  datatype Candidate<!A> = Candidate(loads: bool, run: A -> Outcome, editDistance: real)

  /** `try_check_condition` of llm4spi/basicEvaluate.py. */
  function Normalise(o: Outcome): (r: Prediction)
    ensures r.B? || r == NoneP || r == FailedStr || r == NotBool
    ensures r == FailedStr <==> !o.Returned?
    ensures r == NotBool <==> o.Returned? && o.value.VOther?
    ensures r == NoneP <==> o == Returned(VNone)
    ensures o.Returned? && o.value.VBool? ==> r == B(o.value.b)
  {
    match o
    case TimedOut => FailedStr
    case Crashed => FailedStr
    case Returned(v) =>
      match v
      case VBool(b) => B(b)
      case VNone => NoneP
      case VOther(_) => NotBool
  }

  /** A returned Python value seen as a prediction, unchanged. */
  function AsPrediction(v: Value): Prediction {
    match v
    case VBool(b) => B(b)
    case VNone => NoneP
    case VOther(t) => Other(t)
  }

  /**
   * `try_check_condition` of llm4spi/evaluation.py: "failed" on a crash or a
   * timeout, otherwise the returned value unchanged. It differs from the
   * newer normaliser only where that one says "not a boolean value".
   */
  function LegacyNormalise(o: Outcome): (r: Prediction)
    ensures !o.Returned? ==> r == FailedStr
    ensures o.Returned? ==> r == AsPrediction(o.value)
    ensures r == Normalise(o) || (r.Other? && Normalise(o) == NotBool)
  {
    match o
    case TimedOut => FailedStr
    case Crashed => FailedStr
    case Returned(v) => AsPrediction(v)
  }

  /** `[try_check_condition(tc, ...) for tc in suite]` for the newer evaluator. */
  function Run<A>(c: Candidate<A>, suite: seq<A>): (r: seq<Prediction>)
    ensures |r| == |suite|
  {
    seq(|suite|, i requires 0 <= i < |suite| => Normalise(c.run(suite[i])))
  }

  /** The same comprehension for the older evaluator. */
  function LegacyRun<A>(c: Candidate<A>, suite: seq<A>): (r: seq<Prediction>)
    ensures |r| == |suite|
  {
    seq(|suite|, i requires 0 <= i < |suite| => LegacyNormalise(c.run(suite[i])))
  }

  /** The reference's answers on a suite. */
  function Expected<A>(ref: Reference<A>, suite: seq<A>): (r: seq<bool>)
    ensures |r| == |suite|
  {
    seq(|suite|, i requires 0 <= i < |suite| => ref.run(suite[i]))
  }

  /** Running a concatenated suite gives the concatenated predictions. */
  lemma RunConcat<A>(ref: Reference<A>, c: Candidate<A>, s1: seq<A>, s2: seq<A>)
    ensures Run(c, s1 + s2) == Run(c, s1) + Run(c, s2)
    ensures LegacyRun(c, s1 + s2) == LegacyRun(c, s1) + LegacyRun(c, s2)
    ensures Expected(ref, s1 + s2) == Expected(ref, s1) + Expected(ref, s2)
  {
  }

  /**
   * A crash, a timeout, or a returned value that is neither a bool nor None
   * anywhere in a suite makes the newer classifier's verdict `failed`,
   * whatever the flag.
   */
  lemma BadOutcomeFails<A>(ignoreNone: bool, e: seq<bool>, c: Candidate<A>, suite: seq<A>, i: int)
    requires |e| == |suite| && 0 <= i < |suite|
    requires !c.run(suite[i]).Returned? || c.run(suite[i]).value.VOther?
    ensures Classify(ignoreNone, e, Run(c, suite)) == Failed
  {
    ClassifyBadPredictionFails(ignoreNone, e, Run(c, suite), i);
  }

  /**
   * The two normalisers lead to the same verdict on every suite: the older
   * one's pass-through of non-boolean values is judged exactly like the newer
   * one's "not a boolean value".
   */
  lemma NormalisersAgree<A>(ignoreNone: bool, e: seq<bool>, c: Candidate<A>, suite: seq<A>)
    requires |e| == |suite|
    ensures Classify(ignoreNone, e, Run(c, suite)) == Classify(ignoreNone, e, LegacyRun(c, suite))
  {
    var p1, p2 := Run(c, suite), LegacyRun(c, suite);
    forall i | 0 <= i < |p1| ensures SameKind(p1[i], p2[i]) {
      assert p2[i] == LegacyNormalise(c.run(suite[i]));
    }
    ClassifyRespectsKind(ignoreNone, e, p1, p2);
  }

  // ---------------------------------------------------------------------------
  // Completions as the evaluators receive them
  // ---------------------------------------------------------------------------

  /**
   * The older evaluator's `[textwrap.indent(body, '    ') for body in ...]`:
   * there is no guard, so a `None` body raises and no candidate list comes
   * out (None); otherwise every body gives its candidate, in order.
   */
  function IndentAll<A>(bodies: seq<Option<Candidate<A>>>): (r: Option<seq<Candidate<A>>>)
    ensures r.None? <==> None in bodies
    ensures r.Some? ==> |r.value| == |bodies| && forall i :: 0 <= i < |bodies| ==> bodies[i] == Some(r.value[i])
  {
    if bodies == [] then Some([])
    else
      var init, last := bodies[..|bodies| - 1], bodies[|bodies| - 1];
      assert bodies == init + [last];
      var prev := IndentAll(init);
      if prev.None? || last.None? then None else Some(prev.value + [last.value])
  }

  /**
   * The newer evaluator's guarded comprehension: a `None` body is replaced by
   * the empty body, whose definition (the header alone) is `emptyBody`.
   */
  function IndentGuarded<A>(bodies: seq<Option<Candidate<A>>>, emptyBody: Candidate<A>): (cs: seq<Candidate<A>>)
    ensures |cs| == |bodies|
  {
    seq(|bodies|, i requires 0 <= i < |bodies| => match bodies[i] case Some(c) => c case None => emptyBody)
  }

  /**
   * The guard changes nothing where the older comprehension succeeds: it
   * only turns the raising case into a list of candidates.
   */
  lemma GuardOnlyChangesRaising<A>(bodies: seq<Option<Candidate<A>>>, emptyBody: Candidate<A>)
    requires IndentAll(bodies).Some?
    ensures IndentGuarded(bodies, emptyBody) == IndentAll(bodies).value
  {
    var cs, ds := IndentGuarded(bodies, emptyBody), IndentAll(bodies).value;
    forall i | 0 <= i < |bodies|
      ensures cs[i] == ds[i]
    {
      assert bodies[i] == Some(ds[i]);
    }
  }

  /**
   * One answer without a body stops the older evaluator while the newer one
   * evaluates both completions, the missing one as the empty body.
   */
  lemma NoneBodyStopsLegacy<A>(c: Candidate<A>, emptyBody: Candidate<A>)
    ensures IndentAll([Some(c), None]).None?
    ensures IndentGuarded([Some(c), None], emptyBody) == [c, emptyBody]
  {
    var bodies: seq<Option<Candidate<A>>> := [Some(c), None];
    assert None in bodies by {
      assert bodies[1] == None;
    }
  }
}
