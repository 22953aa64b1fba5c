/**
 * The older evaluator, llm4spi/evaluation.py: per task and condition it
 * splits the tests into a base suite and a validation suite, labels every
 * candidate on the base suite, judges it on all tests, and selects the first
 * candidate the base suite accepts.
 */
module LegacyEvaluate {
  import opened Wrappers
  import opened Counting
  import opened Classifier
  import opened Invocation
  import opened Suites
  import BasicEvaluate

  /** The labels 'accepted' and 'NOT accepted', of a candidate on the base suite and of a task. */
  datatype Label = LabelAccepted | LabelNotAccepted

  /** What the candidate loop appends for one candidate: its base mark and its full verdict. */
  datatype Entry = Entry(base: Label, full: Verdict)

  /**
   * One pass of the candidate loop. A definition that does not load is
   * 'NOT accepted' and 'failed'. Otherwise the mark is 'accepted' exactly
   * when the raw base verdict is, and the full verdict is the raw one when
   * there are no validation tests; that shortcut agrees with judging the
   * concatenated suites.
   */
  function EvaluateCandidate<A>(ignoreNone: bool, base: seq<A>, validation: seq<A>,
                                refBase: seq<bool>, refValidation: seq<bool>, c: Candidate<A>): (e: Entry)
    ensures e.base == LabelAccepted <==> c.loads && Classify(ignoreNone, refBase, LegacyRun(c, base)) == Accepted
    ensures !c.loads ==> e.full == Failed
    ensures c.loads && |refValidation| == |validation| ==>
      e.full == Classify(ignoreNone, refBase + refValidation, LegacyRun(c, base) + LegacyRun(c, validation))
  {
    if !c.loads then Entry(LabelNotAccepted, Failed)
    else
      var resultsBase := LegacyRun(c, base);
      var rawBase := Classify(ignoreNone, refBase, resultsBase);
      var mark := if rawBase == Accepted then LabelAccepted else LabelNotAccepted;
      if validation == [] then
        assert |refValidation| == |validation| ==> refBase + refValidation == refBase by {
          assert |refValidation| == |validation| ==> refValidation == [];
        }
        assert resultsBase + LegacyRun(c, validation) == resultsBase;
        Entry(mark, rawBase)
      else
        Entry(mark, Classify(ignoreNone, refBase + refValidation, resultsBase + LegacyRun(c, validation)))
  }

  /** The three lists the candidate loop builds: labels, full verdicts and edit distances. */
  datatype Records = Records(labels: seq<Label>, fulls: seq<Verdict>, dists: seq<real>)

  /** The lists the candidate loop builds for the candidates cs, one position per candidate. */
  function Judgements<A>(ignoreNone: bool, base: seq<A>, validation: seq<A>,
                         refBase: seq<bool>, refValidation: seq<bool>, cs: seq<Candidate<A>>): (r: Records)
    ensures |r.labels| == |r.fulls| == |r.dists| == |cs|
  {
    if cs == [] then Records([], [], [])
    else
      var prev := Judgements(ignoreNone, base, validation, refBase, refValidation, cs[..|cs| - 1]);
      var c := cs[|cs| - 1];
      var e := EvaluateCandidate(ignoreNone, base, validation, refBase, refValidation, c);
      Records(prev.labels + [e.base], prev.fulls + [e.full], prev.dists + [c.editDistance])
  }

  /** Position k of the lists holds candidate k's label, full verdict and edit distance. */
  lemma {:induction false} JudgementsAt<A>(ignoreNone: bool, base: seq<A>, validation: seq<A>,
                                           refBase: seq<bool>, refValidation: seq<bool>, cs: seq<Candidate<A>>, k: nat)
    requires k < |cs|
    ensures var r := Judgements(ignoreNone, base, validation, refBase, refValidation, cs);
      var e := EvaluateCandidate(ignoreNone, base, validation, refBase, refValidation, cs[k]);
      r.labels[k] == e.base && r.fulls[k] == e.full && r.dists[k] == cs[k].editDistance
  {
    var n := |cs| - 1;
    if k < n {
      JudgementsAt(ignoreNone, base, validation, refBase, refValidation, cs[..n], k);
      assert cs[..n][k] == cs[k];
    }
  }

  /** The position of the first 'accepted' mark, if any. */
  function FirstAccepted(labels: seq<Label>): (k: Option<nat>)
    ensures k.None? <==> forall i :: 0 <= i < |labels| ==> labels[i] == LabelNotAccepted
    ensures k.Some? ==>
      && k.value < |labels| && labels[k.value] == LabelAccepted
      && forall i :: 0 <= i < k.value ==> labels[i] == LabelNotAccepted
  {
    if labels == [] then None
    else if labels[0] == LabelAccepted then Some(0)
    else
      var rest := FirstAccepted(labels[1..]);
      assert labels[0] == LabelNotAccepted;
      assert forall i :: 1 <= i < |labels| ==> labels[i] == labels[1..][i - 1];
      if rest.None? then
        assert forall i :: 0 <= i < |labels| ==> labels[i] == LabelNotAccepted by {
          forall i | 0 <= i < |labels| ensures labels[i] == LabelNotAccepted {
            if i > 0 {
              assert labels[i] == labels[1..][i - 1];
            }
          }
        }
        None
      else
        Some(rest.value + 1)
  }

  /** The slicing of the split test list into the base suite and the validation suite. */
  method SplitSuites<A>(useSecondSuite: bool, segs: seq<seq<A>>) returns (base: seq<A>, validation: seq<A>)
    requires |segs| >= 1
    ensures (base, validation) == LegacyTiering(useSecondSuite, segs)
  {
    base, validation := segs[0], [];
    if |segs| == 2 {
      validation := segs[1];
    } else if |segs| > 2 {
      if useSecondSuite {
        base := base + segs[1];
        validation := ExtendAll(segs, 2);
      } else {
        validation := ExtendAll(segs, 1);
      }
    }
  }

  /** The candidate loop: an edit distance for every candidate, and its mark and full verdict. */
  method EvaluateAll<A>(ignoreNone: bool, base: seq<A>, validation: seq<A>,
                        refBase: seq<bool>, refValidation: seq<bool>, cs: seq<Candidate<A>>)
    returns (labels: seq<Label>, fulls: seq<Verdict>, dists: seq<real>)
    ensures Records(labels, fulls, dists) == Judgements(ignoreNone, base, validation, refBase, refValidation, cs)
  {
    labels, fulls, dists := [], [], [];
    for k := 0 to |cs|
      invariant Records(labels, fulls, dists) == Judgements(ignoreNone, base, validation, refBase, refValidation, cs[..k])
    {
      var c := cs[k];
      assert cs[..k + 1][..k] == cs[..k];
      dists := dists + [c.editDistance];
      if !c.loads {
        labels, fulls := labels + [LabelNotAccepted], fulls + [Failed];
        continue;
      }
      var resultsBase := LegacyRun(c, base);
      var resultsValidation := LegacyRun(c, validation);
      var rawBase := CompareResults(ignoreNone, refBase, resultsBase);
      var mark := if rawBase == Accepted then LabelAccepted else LabelNotAccepted;
      var full;
      if validation == [] {
        full := rawBase;
      } else {
        full := CompareResults(ignoreNone, refBase + refValidation, resultsBase + resultsValidation);
      }
      labels, fulls := labels + [mark], fulls + [full];
    }
    assert cs[..|cs|] == cs;
  }

  /** A non-empty condition description is present, and the solution's definition loads. */
  predicate Applicable<A>(condition: Field<string>, solution: Reference<A>) {
    condition.Given? && condition.value != "" && solution.loads
  }

  /** The lists the candidate loop builds for a task's solution, tests and completions. */
  function TaskRecords<A>(useSecondSuite: bool, ignoreNone: bool, solution: Reference<A>,
                          tests: seq<TestItem<A>>, completions: seq<Candidate<A>>): (r: Records)
    ensures |r.labels| == |r.fulls| == |r.dists| == |completions|
  {
    var suites := LegacyTiering(useSecondSuite, Split(tests));
    Judgements(ignoreNone, suites.0, suites.1, Expected(solution, suites.0), Expected(solution, suites.1), completions)
  }

  /**
   * The work between the applicability checks and the search: split the
   * tests, run the reference once per suite, and run the candidate loop.
   */
  method RunCandidates<A>(useSecondSuite: bool, ignoreNone: bool, solution: Reference<A>,
                          tests: seq<TestItem<A>>, completions: seq<Candidate<A>>)
    returns (labels: seq<Label>, fulls: seq<Verdict>, dists: seq<real>)
    ensures Records(labels, fulls, dists) == TaskRecords(useSecondSuite, ignoreNone, solution, tests, completions)
  {
    var segs := ListSplit(tests);
    var base, validation := SplitSuites(useSecondSuite, segs);
    var refBase, refValidation := Expected(solution, base), Expected(solution, validation);
    labels, fulls, dists := EvaluateAll(ignoreNone, base, validation, refBase, refValidation, completions);
    assert LegacyTiering(useSecondSuite, Split(tests)) == (base, validation);
  }

  // ---------------------------------------------------------------------------
  // The task record, updated in place
  // ---------------------------------------------------------------------------

  /** What the dataset summary reads of one task. */
  datatype View = View(baseEvaluation: Option<Label>, evaluation: Option<Label>, baseEvaluations: Option<seq<Label>>)

  /**
   * The relation between a task's result fields after evaluation: all are
   * None together; the task is 'accepted' by the base tests exactly when one
   * of its candidates is; and it can be 'accepted' by all tests only then.
   */
  predicate Consistent(v: View) {
    && (v.baseEvaluation.None? <==> v.baseEvaluations.None?)
    && (v.evaluation.None? <==> v.baseEvaluation.None?)
    && (v.baseEvaluations.Some? ==> (v.baseEvaluation == Some(LabelAccepted) <==> LabelAccepted in v.baseEvaluations.value))
    && (v.evaluation == Some(LabelAccepted) ==> v.baseEvaluation == Some(LabelAccepted))
  }

  /**
   * The part of a task's dictionary that belongs to one condition kind. A
   * completion is None when the model gave no body.
   */
  class LegacyConditionTask<A> {
    const condition: Field<string>
    const solution: Reference<A>
    const tests: seq<TestItem<A>>
    const completions: seq<Option<Candidate<A>>>
    var baseEvaluation: Option<Label>
    var evaluation: Option<Label>
    var baseEvaluations: Option<seq<Label>>
    var evaluations: Option<seq<Verdict>>
    var editDistances: Option<seq<real>>
    var acceptedCompletion: Option<nat>
    var acceptedCompletionEditDistance: Option<real>

    constructor (condition: Field<string>, solution: Reference<A>, tests: seq<TestItem<A>>,
                 completions: seq<Option<Candidate<A>>>)
      ensures this.condition == condition && this.solution == solution
      ensures this.tests == tests && this.completions == completions
      ensures baseEvaluation == None && evaluation == None && baseEvaluations == None
      ensures evaluations == None && editDistances == None
      ensures acceptedCompletion == None && acceptedCompletionEditDistance == None
    {
      this.condition := condition;
      this.solution := solution;
      this.tests := tests;
      this.completions := completions;
      baseEvaluation, evaluation, baseEvaluations := None, None, None;
      evaluations, editDistances := None, None;
      acceptedCompletion, acceptedCompletionEditDistance := None, None;
    }

    function GetView(): View
      reads this`baseEvaluation, this`evaluation, this`baseEvaluations
    {
      View(baseEvaluation, evaluation, baseEvaluations)
    }

    /**
     * `evaluate_task_result(task, condition)`. When the task does not apply,
     * or when a completion has no body and indenting it raises (`raised`),
     * all result fields are None except the accepted-completion fields,
     * which keep their old values. Otherwise every candidate is labelled
     * and judged, and the task is accepted on the base tests through its
     * first accepted candidate, whose number and edit distance are stored.
     */
    method EvaluateTaskResult(useSecondSuite: bool, ignoreNone: bool) returns (raised: bool)
      modifies this`baseEvaluation, this`evaluation, this`baseEvaluations, this`evaluations,
               this`editDistances, this`acceptedCompletion, this`acceptedCompletionEditDistance
      ensures Consistent(GetView())
      ensures raised <==> Applicable(condition, solution) && None in completions
      ensures !Applicable(condition, solution) || raised ==>
        && baseEvaluation == None && evaluation == None && baseEvaluations == None
        && evaluations == None && editDistances == None
        && acceptedCompletion == old(acceptedCompletion)
        && acceptedCompletionEditDistance == old(acceptedCompletionEditDistance)
      ensures Applicable(condition, solution) && !raised ==>
        var r := TaskRecords(useSecondSuite, ignoreNone, solution, tests, IndentAll(completions).value);
        && baseEvaluations == Some(r.labels)
        && evaluations == Some(r.fulls)
        && editDistances == Some(r.dists)
        && match FirstAccepted(r.labels)
           case None =>
             && baseEvaluation == Some(LabelNotAccepted) && evaluation == Some(LabelNotAccepted)
             && acceptedCompletion == old(acceptedCompletion)
             && acceptedCompletionEditDistance == old(acceptedCompletionEditDistance)
           case Some(k) =>
             && baseEvaluation == Some(LabelAccepted)
             && evaluation == Some(if r.fulls[k] == Accepted then LabelAccepted else LabelNotAccepted)
             && acceptedCompletion == Some(k)
             && acceptedCompletionEditDistance == Some(r.dists[k])
    {
      baseEvaluation, evaluation, baseEvaluations := None, None, None;
      evaluations, editDistances := None, None;
      raised := false;
      if !condition.Given? || condition.value == "" {
        return;
      }
      if !solution.loads {
        return;
      }
      var candidates := IndentAll(completions);
      if candidates.None? {
        raised := true;
        return;
      }
      var labels, fulls, dists := RunCandidates(useSecondSuite, ignoreNone, solution, tests, candidates.value);
      baseEvaluations, evaluations, editDistances := Some(labels), Some(fulls), Some(dists);
      ghost var r := TaskRecords(useSecondSuite, ignoreNone, solution, tests, candidates.value);
      assert r.labels == labels && r.fulls == fulls && r.dists == dists;

      SelectAccepted(labels, fulls, dists);
    }

    /**
     * The search that closes `evaluate_task_result`: the first candidate the
     * base tests accept decides the task's two labels and is stored with its
     * edit distance; when there is none, both labels are 'NOT accepted' and
     * the accepted-completion fields keep their old values.
     */
    method SelectAccepted(labels: seq<Label>, fulls: seq<Verdict>, dists: seq<real>)
      requires |fulls| == |dists| == |labels|
      modifies this`baseEvaluation, this`evaluation, this`acceptedCompletion, this`acceptedCompletionEditDistance
      ensures baseEvaluation == Some(LabelAccepted) <==> LabelAccepted in labels
      ensures baseEvaluation.Some? && evaluation.Some?
      ensures evaluation == Some(LabelAccepted) ==> baseEvaluation == Some(LabelAccepted)
      ensures match FirstAccepted(labels)
        case None =>
          && baseEvaluation == Some(LabelNotAccepted) && evaluation == Some(LabelNotAccepted)
          && acceptedCompletion == old(acceptedCompletion)
          && acceptedCompletionEditDistance == old(acceptedCompletionEditDistance)
        case Some(k) =>
          && baseEvaluation == Some(LabelAccepted)
          && evaluation == Some(if fulls[k] == Accepted then LabelAccepted else LabelNotAccepted)
          && acceptedCompletion == Some(k)
          && acceptedCompletionEditDistance == Some(dists[k])
    {
      for k := 0 to |labels|
        invariant forall j :: 0 <= j < k ==> labels[j] == LabelNotAccepted
      {
        if labels[k] == LabelAccepted {
          baseEvaluation := Some(LabelAccepted);
          evaluation := Some(if fulls[k] == Accepted then LabelAccepted else LabelNotAccepted);
          acceptedCompletion := Some(k);
          acceptedCompletionEditDistance := Some(dists[k]);
          var first := FirstAccepted(labels);
          assert first.Some? && first.value >= k && first.value <= k;
          return;
        }
      }
      baseEvaluation, evaluation := Some(LabelNotAccepted), Some(LabelNotAccepted);
    }
  }

  // ---------------------------------------------------------------------------
  // Dataset summary
  // ---------------------------------------------------------------------------

  /** The stored counts of `mk_results_summary` for one condition kind. */
  datatype Summary = Summary(tasks: nat, acceptedByBase: nat, weaklyAcceptedByBase: nat, acceptedByAll: nat)

  function HasBaseEvaluation(v: View): bool { v.baseEvaluation.Some? }
  function BaseIsAccepted(v: View): bool { v.baseEvaluation == Some(LabelAccepted) }
  function AllIsAccepted(v: View): bool { v.evaluation == Some(LabelAccepted) }

  /** The weak-acceptance filter: some mark in the task's list is 'accepted', 'too_weak' or 'too_strong'. */
  function WeaklyAccepted(v: View): bool { v.baseEvaluations.Some? && LabelAccepted in v.baseEvaluations.value }

  /**
   * `mk_results_summary`'s counts: tasks with a base mark, those accepted
   * by the base tests, those with a weakly accepted candidate, and those
   * accepted by all tests. Accepted ones are among the labelled ones.
   */
  function Summarize(views: seq<View>): (s: Summary)
    ensures s.acceptedByBase <= s.tasks <= |views|
    ensures s.weaklyAcceptedByBase <= |views| && s.acceptedByAll <= |views|
  {
    CountMono(views, BaseIsAccepted, HasBaseEvaluation);
    Summary(Count(views, HasBaseEvaluation), Count(views, BaseIsAccepted),
            Count(views, WeaklyAccepted), Count(views, AllIsAccepted))
  }

  /**
   * Over tasks left consistent by evaluation, the weakly-accepted count is
   * the accepted count (the labels can only be 'accepted' or 'NOT
   * accepted'), and acceptance by all tests implies acceptance by the base.
   */
  lemma SummaryFacts(views: seq<View>)
    requires forall v :: v in views ==> Consistent(v)
    ensures var s := Summarize(views);
      && s.acceptedByAll <= s.acceptedByBase <= s.tasks
      && s.weaklyAcceptedByBase == s.acceptedByBase
  {
    CountMono(views, AllIsAccepted, BaseIsAccepted);
    CountSame(views, WeaklyAccepted, BaseIsAccepted);
  }

  // ---------------------------------------------------------------------------
  // The two evaluators compared
  // ---------------------------------------------------------------------------

  /**
   * With the second suite counted as a base suite, the older evaluator's base
   * mark for a loaded candidate is 'accepted' exactly when the newer
   * evaluator's all-bases verdict is Accepted: the base suite is base0
   * followed by base1, and the two normalisers lead to the same verdicts.
   */
  lemma AgreesOnBase<A>(ignoreNone: bool, ref: Reference<A>, tests: seq<TestItem<A>>, c: Candidate<A>, k: nat)
    requires c.loads
    ensures var t := BasicTiering(Split(tests));
      var (base, validation) := LegacyTiering(true, Split(tests));
      var e := EvaluateCandidate(ignoreNone, base, validation, Expected(ref, base), Expected(ref, validation), c);
      var rec := BasicEvaluate.EvaluateCandidate(ignoreNone, t, BasicEvaluate.ReferenceRun(ref, t), c, k);
      e.base == LabelAccepted <==> rec.allBasesVerdict == Accepted
  {
    var segs := Split(tests);
    var t := BasicTiering(segs);
    LegacyTieringMatchesBasic(segs);
    var base := t.base0 + t.base1;
    RunConcat(ref, c, t.base0, t.base1);
    NormalisersAgree(ignoreNone, Expected(ref, base), c, base);
  }

  /**
   * Under the same configuration, the older evaluator's full verdict for a
   * loaded candidate is the newer evaluator's all-suites verdict.
   */
  lemma AgreesOnFull<A>(ignoreNone: bool, ref: Reference<A>, tests: seq<TestItem<A>>, c: Candidate<A>, k: nat)
    requires c.loads
    ensures var t := BasicTiering(Split(tests));
      var (base, validation) := LegacyTiering(true, Split(tests));
      var e := EvaluateCandidate(ignoreNone, base, validation, Expected(ref, base), Expected(ref, validation), c);
      var rec := BasicEvaluate.EvaluateCandidate(ignoreNone, t, BasicEvaluate.ReferenceRun(ref, t), c, k);
      e.full == rec.allSuitesVerdict
  {
    var segs := Split(tests);
    var t := BasicTiering(segs);
    LegacyTieringMatchesBasic(segs);
    var base, validation := t.base0 + t.base1, t.validation;
    RunConcat(ref, c, t.base0, t.base1);
    RunConcat(ref, c, base, validation);
    NormalisersAgree(ignoreNone, Expected(ref, base + validation), c, base + validation);
    assert Expected(ref, base) + Expected(ref, validation)
      == Expected(ref, t.base0) + Expected(ref, t.base1) + Expected(ref, t.validation);
    assert Run(c, base) + Run(c, validation) == Run(c, t.base0) + Run(c, t.base1) + Run(c, t.validation);
  }
}
