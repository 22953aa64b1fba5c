/**
 * The newer evaluator, llm4spi/basicEvaluate.py: per task and condition it
 * runs the reference and every candidate on three tiers of tests, records
 * four verdicts per loaded candidate, and summarises them per task and over
 * the whole dataset.
 */
module BasicEvaluate {
  import opened Wrappers
  import opened Counting
  import opened Classifier
  import opened Invocation
  import opened Suites

  /** The reference's answers per tier (the dictionary `R`). */
  datatype ReferenceResults = ReferenceResults(base0: seq<bool>, base1: seq<bool>, validation: seq<bool>)

  /**
   * One entry `U` of the candidates' table: a candidate whose definition did
   * not load carries only its number; a loaded one carries its predictions
   * per tier, its four verdicts, and its edit distance.
   */
  datatype CandidateRecord =
    | DefCrashed(nr: nat)
    | Evaluated(nr: nat,
                base0: seq<Prediction>, base1: seq<Prediction>, validation: seq<Prediction>,
                base0Verdict: Verdict, allBasesVerdict: Verdict,
                validationVerdict: Verdict, allSuitesVerdict: Verdict,
                editDistance: real)

  /** The counts of a task's summary (its two average edit distances are left out). */
  datatype TaskSummary = TaskSummary(
    defCrashes: nat,
    base0Accept: nat, base0TooWeak: nat, base0TooStrong: nat,
    allBasesAccept: nat, allBasesTooWeak: nat, allBasesTooStrong: nat,
    allTestsAccept: nat)

  function ReferenceRun<A>(ref: Reference<A>, t: Tiers<A>): (r: ReferenceResults)
    ensures Aligned(t, r)
  {
    ReferenceResults(Expected(ref, t.base0), Expected(ref, t.base1), Expected(ref, t.validation))
  }

  /** Reference answers and tiers of the same lengths. */
  predicate Aligned<A>(t: Tiers<A>, r: ReferenceResults) {
    |r.base0| == |t.base0| && |r.base1| == |t.base1| && |r.validation| == |t.validation|
  }

  /** The record the evaluator builds for candidate number k. */
  function EvaluateCandidate<A>(ignoreNone: bool, t: Tiers<A>, r: ReferenceResults, c: Candidate<A>, k: nat)
    : CandidateRecord
  {
    if !c.loads then DefCrashed(k)
    else
      var b0, b1, v := Run(c, t.base0), Run(c, t.base1), Run(c, t.validation);
      Evaluated(k, b0, b1, v,
                Classify(ignoreNone, r.base0, b0),
                Classify(ignoreNone, r.base0 + r.base1, b0 + b1),
                Classify(ignoreNone, r.validation, v),
                Classify(ignoreNone, r.base0 + r.base1 + r.validation, b0 + b1 + v),
                c.editDistance)
  }

  function EvaluateCandidates<A>(ignoreNone: bool, t: Tiers<A>, r: ReferenceResults, cs: seq<Candidate<A>>)
    : (rs: seq<CandidateRecord>)
    ensures |rs| == |cs|
  {
    seq(|cs|, k requires 0 <= k < |cs| => EvaluateCandidate(ignoreNone, t, r, cs[k], k))
  }

  /**
   * A loaded candidate's verdicts only ever get weaker as tiers are added
   * (with the ignore-None flag off): accepted on all suites implies accepted
   * on all bases, which implies accepted on base0. Every candidate gets a
   * record carrying its own number, and a record has verdicts exactly when
   * the candidate's definition loaded.
   */
  lemma {:induction false} RecordVerdictChain<A>(t: Tiers<A>, r: ReferenceResults, c: Candidate<A>, k: nat)
    requires Aligned(t, r)
    ensures var rec := EvaluateCandidate(false, t, r, c, k);
      && rec.nr == k
      && (rec.Evaluated? <==> c.loads)
      && (rec.Evaluated? ==>
           && (rec.allSuitesVerdict == Accepted ==> rec.allBasesVerdict == Accepted)
           && (rec.allBasesVerdict == Accepted ==> rec.base0Verdict == Accepted))
  {
    if c.loads {
      var b0, b1, v := Run(c, t.base0), Run(c, t.base1), Run(c, t.validation);
      if Classify(false, r.base0 + r.base1 + r.validation, b0 + b1 + v) == Accepted {
        AcceptedParts(r.base0 + r.base1, r.validation, b0 + b1, v);
      }
      if Classify(false, r.base0 + r.base1, b0 + b1) == Accepted {
        AcceptedParts(r.base0, r.base1, b0, b1);
      }
    }
  }

  /**
   * With the ignore-None flag on the chain breaks: a candidate that abstains
   * on all of base0 but is right on base1 is accepted on all bases and
   * failed on base0.
   */
  lemma ChainNeedsFlagOff()
    ensures var t := Tiers([0], [1], []);
      var r := ReferenceResults([true], [true], []);
      var c := Candidate(true, (x: int) => if x == 0 then Returned(VNone) else Returned(VBool(true)), 0.0);
      var rec := EvaluateCandidate(true, t, r, c, 0);
      rec.allBasesVerdict == Accepted && rec.base0Verdict == Failed
  {
    var c := Candidate(true, (x: int) => if x == 0 then Returned(VNone) else Returned(VBool(true)), 0.0);
    assert c.run(0) == Returned(VNone) && c.run(1) == Returned(VBool(true));
    assert Run(c, [0])[0] == Normalise(c.run(0)) == NoneP;
    assert Run(c, [1])[0] == Normalise(c.run(1)) == B(true);
    assert Run(c, [0]) == [NoneP];
    assert Run(c, [1]) == [B(true)];
    AcceptedPrefixNeedsFlagOff();
  }

  // ---------------------------------------------------------------------------
  // Per-task summary
  // ---------------------------------------------------------------------------

  /** The filter `V["def-loaded"] == "success"`. */
  function Loaded(rec: CandidateRecord): bool { rec.Evaluated? }

  /**
   * `[V for V in tasks_results if V["def-loaded"] == "success"]`: one record
   * per loaded record, counted with repetition.
   */
  function NonCrashes(rs: seq<CandidateRecord>): (nc: seq<CandidateRecord>)
    ensures |nc| == Count(rs, Loaded)
  {
    if rs == [] then []
    else NonCrashes(rs[..|rs| - 1]) + if rs[|rs| - 1].Evaluated? then [rs[|rs| - 1]] else []
  }

  /** The kept records are exactly the loaded ones. */
  lemma {:induction false} NonCrashesMembers(rs: seq<CandidateRecord>)
    ensures forall x :: x in NonCrashes(rs) <==> x in rs && x.Evaluated?
  {
    if rs != [] {
      var init, last := rs[..|rs| - 1], rs[|rs| - 1];
      NonCrashesMembers(init);
      assert rs == init + [last];
    }
  }

  datatype Column = OnBase0 | OnAllBases | OnAllSuites

  function VerdictOn(rec: CandidateRecord, col: Column): Verdict
    requires rec.Evaluated?
  {
    match col
    case OnBase0 => rec.base0Verdict
    case OnAllBases => rec.allBasesVerdict
    case OnAllSuites => rec.allSuitesVerdict
  }

  /** The filter `V["<column>-verdict"] == "<verdict>"`. */
  function HasVerdict(col: Column, v: Verdict): CandidateRecord -> bool {
    (rec: CandidateRecord) => rec.Evaluated? && VerdictOn(rec, col) == v
  }

  function CountOn(nc: seq<CandidateRecord>, col: Column, v: Verdict): (n: nat)
    ensures n <= |nc|
  {
    Count(nc, HasVerdict(col, v))
  }

  /**
   * The counts of a task's summary: crashed definitions plus loaded
   * candidates make up all candidates, and on base0 and on all bases the
   * accepted, too-weak and too-strong candidates are distinct loaded ones.
   */
  function Summarize(records: seq<CandidateRecord>): (s: TaskSummary)
    ensures s.defCrashes + |NonCrashes(records)| == |records|
    ensures s.defCrashes == |records| - Count(records, Loaded)
    ensures s.base0Accept + s.base0TooWeak + s.base0TooStrong <= |NonCrashes(records)|
    ensures s.allBasesAccept + s.allBasesTooWeak + s.allBasesTooStrong <= |NonCrashes(records)|
    ensures s.allTestsAccept <= |NonCrashes(records)|
  {
    var nc := NonCrashes(records);
    CountExclusive3(nc, HasVerdict(OnBase0, Accepted), HasVerdict(OnBase0, TooWeak), HasVerdict(OnBase0, TooStrong));
    CountExclusive3(nc, HasVerdict(OnAllBases, Accepted), HasVerdict(OnAllBases, TooWeak), HasVerdict(OnAllBases, TooStrong));
    TaskSummary(
      |records| - |nc|,
      CountOn(nc, OnBase0, Accepted), CountOn(nc, OnBase0, TooWeak), CountOn(nc, OnBase0, TooStrong),
      CountOn(nc, OnAllBases, Accepted), CountOn(nc, OnAllBases, TooWeak), CountOn(nc, OnAllBases, TooStrong),
      CountOn(nc, OnAllSuites, Accepted))
  }

  /**
   * Restricting the counts to loaded candidates changes nothing: a record
   * of a candidate whose definition did not load has no verdict to count.
   */
  lemma {:induction false} CountsIgnoreCrashes(rs: seq<CandidateRecord>, col: Column, v: Verdict)
    ensures CountOn(NonCrashes(rs), col, v) == Count(rs, HasVerdict(col, v))
  {
    if rs != [] {
      var init, last := rs[..|rs| - 1], rs[|rs| - 1];
      var f := HasVerdict(col, v);
      CountsIgnoreCrashes(init, col, v);
      var nc := NonCrashes(init);
      assert Count(rs, f) == Count(init, f) + (if f(last) then 1 else 0);
      assert Count(NonCrashes(rs), f) == Count(nc, f) + (if f(last) then 1 else 0) by {
        if last.Evaluated? {
          assert NonCrashes(rs) == nc + [last];
          assert (nc + [last])[..|nc|] == nc;
        } else {
          assert NonCrashes(rs) == nc + [] == nc;
          assert !f(last);
        }
      }
    }
  }

  /** With the ignore-None flag off: allTests_accept <= allBases_accept <= base0_accept. */
  lemma SummaryChain<A>(t: Tiers<A>, r: ReferenceResults, cs: seq<Candidate<A>>)
    requires Aligned(t, r)
    ensures var s := Summarize(EvaluateCandidates(false, t, r, cs));
      s.allTestsAccept <= s.allBasesAccept <= s.base0Accept
  {
    var rs := EvaluateCandidates(false, t, r, cs);
    var nc := NonCrashes(rs);
    NonCrashesMembers(rs);
    forall x | x in nc
      ensures HasVerdict(OnAllSuites, Accepted)(x) ==> HasVerdict(OnAllBases, Accepted)(x)
      ensures HasVerdict(OnAllBases, Accepted)(x) ==> HasVerdict(OnBase0, Accepted)(x)
    {
      var k :| 0 <= k < |rs| && rs[k] == x;
      RecordVerdictChain(t, r, cs[k], k);
    }
    CountMono(nc, HasVerdict(OnAllSuites, Accepted), HasVerdict(OnAllBases, Accepted));
    CountMono(nc, HasVerdict(OnAllBases, Accepted), HasVerdict(OnBase0, Accepted));
  }

  // ---------------------------------------------------------------------------
  // Dataset summary
  // ---------------------------------------------------------------------------

  /** The stored counts of `mk_results_summary` for one condition kind. */
  datatype DatasetSummary = DatasetSummary(
    tasks: nat,
    base0Accepted: nat, base0WeaklyAccepted: nat,
    allBasesAccepted: nat, allBasesWeaklyAccepted: nat,
    allTestsAccepted: nat)

  /** The filter `T[...] != None` on a task's stored summary. */
  function HasSummary(o: Option<TaskSummary>): bool { o.Some? }

  /** The non-None summaries, in task order, once per task. */
  function HasResults(ss: seq<Option<TaskSummary>>): (rs: seq<TaskSummary>)
    ensures |rs| == Count(ss, HasSummary)
    ensures forall s :: s in rs <==> Some(s) in ss
  {
    if ss == [] then []
    else
      var init := ss[..|ss| - 1];
      assert ss == init + [ss[|ss| - 1]];
      HasResults(init) + match ss[|ss| - 1] case None => [] case Some(s) => [s]
  }

  function Base0Accept(s: TaskSummary): bool { s.base0Accept > 0 }
  function Base0WeakAccept(s: TaskSummary): bool { s.base0Accept > 0 || s.base0TooWeak > 0 || s.base0TooStrong > 0 }
  function AllBasesAccept(s: TaskSummary): bool { s.allBasesAccept > 0 }
  function AllBasesWeakAccept(s: TaskSummary): bool {
    s.allBasesAccept > 0 || s.allBasesTooWeak > 0 || s.allBasesTooStrong > 0
  }
  function AllTestsAccept(s: TaskSummary): bool { s.allTestsAccept > 0 }

  /**
   * `mk_results_summary`'s counts for one condition kind: only tasks with a
   * summary are counted, so every count is at most the number of such tasks,
   * and each weakly-accepted count is at least the matching accepted count.
   */
  function MkResultsSummary(ss: seq<Option<TaskSummary>>): (d: DatasetSummary)
    ensures d.tasks == |HasResults(ss)| == Count(ss, HasSummary) <= |ss|
    ensures d.base0Accepted <= d.base0WeaklyAccepted <= d.tasks
    ensures d.allBasesAccepted <= d.allBasesWeaklyAccepted <= d.tasks
    ensures d.allTestsAccepted <= d.tasks
  {
    var h := HasResults(ss);
    CountMono(h, Base0Accept, Base0WeakAccept);
    CountMono(h, AllBasesAccept, AllBasesWeakAccept);
    DatasetSummary(
      |h|,
      Count(h, Base0Accept), Count(h, Base0WeakAccept),
      Count(h, AllBasesAccept), Count(h, AllBasesWeakAccept),
      Count(h, AllTestsAccept))
  }

  /** Per-task chains carry over to the dataset: accepted by all tests <= by all bases <= by base0. */
  lemma DatasetChain(ss: seq<Option<TaskSummary>>)
    requires forall s :: Some(s) in ss ==> s.allTestsAccept <= s.allBasesAccept <= s.base0Accept
    ensures var d := MkResultsSummary(ss);
      d.allTestsAccepted <= d.allBasesAccepted <= d.base0Accepted
  {
    var h := HasResults(ss);
    CountMono(h, AllTestsAccept, AllBasesAccept);
    CountMono(h, AllBasesAccept, Base0Accept);
  }

  // ---------------------------------------------------------------------------
  // The steps of one evaluation, as the evaluator performs them
  // ---------------------------------------------------------------------------

  /** The slicing of the split test list into base0, base1 and validation. */
  method SplitTiers<A>(segs: seq<seq<A>>) returns (t: Tiers<A>)
    requires |segs| >= 1
    ensures t == BasicTiering(segs)
  {
    var base0, base1, validation := segs[0], [], [];
    if |segs| == 2 {
      validation := segs[1];
    } else if |segs| > 2 {
      base1 := segs[1];
      validation := ExtendAll(segs, 2);
    }
    t := Tiers(base0, base1, validation);
  }

  /** One pass of the candidate loop: run the candidate on each tier and judge it four times. */
  method EvaluateOne<A>(ignoreNone: bool, t: Tiers<A>, r: ReferenceResults, c: Candidate<A>, k: nat)
    returns (rec: CandidateRecord)
    ensures rec == EvaluateCandidate(ignoreNone, t, r, c, k)
  {
    if !c.loads {
      return DefCrashed(k);
    }
    var b0, b1, v := Run(c, t.base0), Run(c, t.base1), Run(c, t.validation);
    var base0Verdict := CompareResults(ignoreNone, r.base0, b0);
    var allBasesVerdict := CompareResults(ignoreNone, r.base0 + r.base1, b0 + b1);
    var validationVerdict := CompareResults(ignoreNone, r.validation, v);
    var allSuitesVerdict := CompareResults(ignoreNone, r.base0 + r.base1 + r.validation, b0 + b1 + v);
    rec := Evaluated(k, b0, b1, v, base0Verdict, allBasesVerdict, validationVerdict, allSuitesVerdict, c.editDistance);
  }

  /** The candidate loop: one record per completion, in order. */
  method EvaluateAll<A>(ignoreNone: bool, t: Tiers<A>, r: ReferenceResults, cs: seq<Candidate<A>>)
    returns (records: seq<CandidateRecord>)
    ensures records == EvaluateCandidates(ignoreNone, t, r, cs)
  {
    records := [];
    for k := 0 to |cs|
      invariant |records| == k
      invariant forall j :: 0 <= j < k ==> records[j] == EvaluateCandidate(ignoreNone, t, r, cs[j], j)
    {
      var rec := EvaluateOne(ignoreNone, t, r, cs[k], k);
      records := records + [rec];
    }
  }

  // ---------------------------------------------------------------------------
  // The task record, updated in place
  // ---------------------------------------------------------------------------

  /**
   * The part of a task's dictionary that belongs to one condition kind
   * ("pre" or "post"): the inputs the evaluator reads and the three result
   * fields it writes. A completion is None when the model gave no body;
   * `emptyBody` is what the header with an empty body defines.
   */
  class ConditionTask<A> {
    const solution: Field<Reference<A>>
    const tests: seq<TestItem<A>>
    const completions: seq<Option<Candidate<A>>>
    const emptyBody: Candidate<A>
    var referenceTestResults: Option<ReferenceResults>
    var candidatesTestResults: Option<seq<CandidateRecord>>
    var resultsSummary: Option<TaskSummary>

    constructor (solution: Field<Reference<A>>, tests: seq<TestItem<A>>, completions: seq<Option<Candidate<A>>>,
                 emptyBody: Candidate<A>)
      ensures this.solution == solution && this.tests == tests
      ensures this.completions == completions && this.emptyBody == emptyBody
      ensures referenceTestResults == None && candidatesTestResults == None && resultsSummary == None
    {
      this.solution := solution;
      this.tests := tests;
      this.completions := completions;
      this.emptyBody := emptyBody;
      referenceTestResults := None;
      candidatesTestResults := None;
      resultsSummary := None;
    }

    /** A solution is present and non-empty, and its definition loads. */
    ghost predicate Applicable()
      reads this
    {
      solution.Given? && solution.value.loads
    }

    /**
     * `evaluate_task_result(task, condition)`. When no usable solution is
     * present the three result fields are None and nothing else is written;
     * otherwise they hold the reference's answers on the tiers, one record
     * per completion (a missing body evaluated as the empty body), and the
     * counts over those records.
     */
    method EvaluateTaskResult(ignoreNone: bool)
      modifies this`referenceTestResults, this`candidatesTestResults, this`resultsSummary
      ensures !Applicable() ==>
        referenceTestResults == None && candidatesTestResults == None && resultsSummary == None
      ensures Applicable() ==>
        var t := BasicTiering(Split(tests));
        var r := ReferenceRun(solution.value, t);
        var rs := EvaluateCandidates(ignoreNone, t, r, IndentGuarded(completions, emptyBody));
        referenceTestResults == Some(r) && candidatesTestResults == Some(rs) && resultsSummary == Some(Summarize(rs))
      ensures !ignoreNone && resultsSummary.Some? ==>
        resultsSummary.value.allTestsAccept <= resultsSummary.value.allBasesAccept <= resultsSummary.value.base0Accept
    {
      referenceTestResults, candidatesTestResults, resultsSummary := None, None, None;
      if !solution.Given? {
        return;
      }
      var reference := solution.value;
      if !reference.loads {
        return;
      }
      var segs := ListSplit(tests);
      var t := SplitTiers(segs);
      var r := ReferenceRun(reference, t);
      referenceTestResults := Some(r);
      var candidates := IndentGuarded(completions, emptyBody);
      var records := EvaluateAll(ignoreNone, t, r, candidates);
      candidatesTestResults := Some(records);
      resultsSummary := Some(Summarize(records));
      if !ignoreNone {
        SummaryChain(t, r, candidates);
      }
    }
  }
}
