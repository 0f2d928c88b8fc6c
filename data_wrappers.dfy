/**
 * The read-only queries of `TestRunResult` over one polled run snapshot:
 * problem flattening, `hasProblems` and the pass rule.
 *
 * The snapshot is an immutable value, so the wrapper object is the
 * `TestRun` datatype itself. A thrown JavaScript error is an `Err` result.
 */
module DataWrappers {
  import opened Wrappers
  import opened Types
  import opened OrderedMaps

  // ---------------------------------------------------------------------
  // Problem flattening: the specification

  /** The problems of the checks of one step, check by check. */
  function ChecksProblems(cs: seq<CheckResult>): seq<ProblemData>
  {
    if |cs| == 0 then [] else ChecksProblems(cs[..|cs| - 1]) + OrEmpty(cs[|cs| - 1].problems)
  }

  /** A step's own problems, then the problems of each of its checks in order. */
  function StepProblems(st: StepResult): seq<ProblemData>
  {
    OrEmpty(st.problems) + ChecksProblems(st.checks)
  }

  /** The problems of every step, step by step. */
  function AllProblems(steps: seq<StepResult>): seq<ProblemData>
  {
    if |steps| == 0 then [] else AllProblems(steps[..|steps| - 1]) + StepProblems(steps[|steps| - 1])
  }

  /**
   * `getProblems()`: iterating an absent `steps` list throws a TypeError;
   * otherwise every problem of the run in document order.
   */
  function Problems(run: TestRun): (r: Result<seq<ProblemData>, Error>)
    ensures r.Ok? <==> run.steps.Some?
  {
    match run.steps
    case None => Err(TypeError("this.data.steps is not iterable"))
    case Some(steps) => Ok(AllProblems(steps))
  }

  /**
   * `getProblems()` as written: nested loops that push each step's own
   * problems and then each check's problems onto one list.
   */
  method GetProblems(run: TestRun) returns (r: Result<seq<ProblemData>, Error>)
    ensures r == Problems(run)
  {
    if run.steps.None? {
      return Err(TypeError("this.data.steps is not iterable"));
    }
    var steps := run.steps.value;
    var problems: seq<ProblemData> := [];
    var i := 0;
    while i < |steps|
      invariant 0 <= i <= |steps|
      invariant problems == AllProblems(steps[..i])
    {
      problems := PushStepProblems(problems, steps[i]);
      assert steps[..i + 1][..i] == steps[..i];
      i := i + 1;
    }
    assert steps[..|steps|] == steps;
    return Ok(problems);
  }

  /** The body of the outer loop: the step's own problems, then each check's. */
  method PushStepProblems(problems: seq<ProblemData>, step: StepResult) returns (r: seq<ProblemData>)
    ensures r == problems + StepProblems(step)
  {
    r := PushAll(problems, OrEmpty(step.problems));
    var j := 0;
    while j < |step.checks|
      invariant 0 <= j <= |step.checks|
      invariant r == problems + OrEmpty(step.problems) + ChecksProblems(step.checks[..j])
    {
      r := PushAll(r, OrEmpty(step.checks[j].problems));
      assert step.checks[..j + 1][..j] == step.checks[..j];
      j := j + 1;
    }
    assert step.checks[..|step.checks|] == step.checks;
  }

  /** `for (const problem of xs) problems.push(problem)`. */
  method PushAll(problems: seq<ProblemData>, xs: seq<ProblemData>) returns (r: seq<ProblemData>)
    ensures r == problems + xs
  {
    r := problems;
    var k := 0;
    while k < |xs|
      invariant 0 <= k <= |xs|
      invariant r == problems + xs[..k]
    {
      assert xs[..k + 1] == xs[..k] + [xs[k]];
      r := r + [xs[k]];
      k := k + 1;
    }
    assert xs[..|xs|] == xs;
  }

  /** `hasProblems()`: the problem list is non-empty (and throws when it does). */
  function HasProblems(run: TestRun): (r: Result<bool, Error>)
    ensures r.Ok? <==> run.steps.Some?
  {
    match Problems(run)
    case Err(e) => Err(e)
    case Ok(ps) => Ok(|ps| > 0)
  }

  /**
   * `hasPassed()`: an absent step list passes; an empty one throws when the
   * missing last step is dereferenced; otherwise the status of the last
   * check of the last step when it has checks, else the step's own status.
   */
  function HasPassed(run: TestRun): (r: Result<bool, Error>)
    ensures r.Err? <==> run.steps == Some([])
  {
    match run.steps
    case None => Ok(true)
    case Some(steps) =>
      if |steps| == 0 then Err(TypeError("Cannot read properties of undefined (reading 'checks')"))
      else
        var last := steps[|steps| - 1];
        if |last.checks| > 0 then Ok(last.checks[|last.checks| - 1].status == Passed)
        else Ok(last.status == Passed)
  }

  // ---------------------------------------------------------------------
  // Reference definitions

  /** The length of an optional list, absence counting as zero. */
  function Len<T>(xs: Option<seq<T>>): nat
  {
    match xs
    case Some(s) => |s|
    case None => 0
  }

  function CheckCount(cs: seq<CheckResult>): nat
  {
    if |cs| == 0 then 0 else Len(cs[0].problems) + CheckCount(cs[1..])
  }

  /** The sum of the lengths of every step-level and check-level problem list. */
  function ProblemCount(steps: seq<StepResult>): nat
  {
    if |steps| == 0 then 0 else Len(steps[0].problems) + CheckCount(steps[0].checks) + ProblemCount(steps[1..])
  }

  /** Some step or some check of a step carries a non-empty problem list. */
  ghost predicate AnyProblemList(steps: seq<StepResult>)
  {
    exists i :: 0 <= i < |steps| &&
      (Len(steps[i].problems) > 0 ||
       exists j :: 0 <= j < |steps[i].checks| && Len(steps[i].checks[j].problems) > 0)
  }

  // ---------------------------------------------------------------------
  // Properties

  /** Flattening distributes over concatenation of check lists. */
  lemma {:induction false} ChecksProblemsAppend(a: seq<CheckResult>, b: seq<CheckResult>)
    ensures ChecksProblems(a + b) == ChecksProblems(a) + ChecksProblems(b)
    decreases |b|
  {
    if |b| == 0 {
      assert a + b == a;
    } else {
      var b' := b[..|b| - 1];
      assert (a + b)[..|a + b| - 1] == a + b';
      ChecksProblemsAppend(a, b');
    }
  }

  /** Flattening distributes over concatenation of step lists: steps keep their order. */
  lemma {:induction false} AllProblemsAppend(a: seq<StepResult>, b: seq<StepResult>)
    ensures AllProblems(a + b) == AllProblems(a) + AllProblems(b)
    decreases |b|
  {
    if |b| == 0 {
      assert a + b == a;
    } else {
      var b' := b[..|b| - 1];
      assert (a + b)[..|a + b| - 1] == a + b';
      AllProblemsAppend(a, b');
    }
  }

  /**
   * Each step contributes its own problems and then its checks' problems,
   * in check order, between the problems of the steps before and after it.
   */
  lemma ProblemsOrder(pre: seq<StepResult>, st: StepResult, post: seq<StepResult>,
                      cpre: seq<CheckResult>, c: CheckResult, cpost: seq<CheckResult>)
    requires st.checks == cpre + [c] + cpost
    ensures AllProblems(pre + [st] + post) ==
      AllProblems(pre) + OrEmpty(st.problems) + ChecksProblems(cpre) + OrEmpty(c.problems)
        + ChecksProblems(cpost) + AllProblems(post)
  {
    var A, B := AllProblems(pre), AllProblems(post);
    var o, p, q, x := OrEmpty(st.problems), ChecksProblems(cpre), OrEmpty(c.problems), ChecksProblems(cpost);
    assert ChecksProblems(cpre + [c]) == p + q by {
      ChecksProblemsAppend(cpre, [c]);
      assert [c][..0] == [];
    }
    assert ChecksProblems(st.checks) == p + q + x by {
      ChecksProblemsAppend(cpre + [c], cpost);
    }
    assert AllProblems(pre + [st]) == A + (o + (p + q + x)) by {
      AllProblemsAppend(pre, [st]);
      assert [st][..0] == [];
    }
    AllProblemsAppend(pre + [st], post);
    calc {
      A + (o + (p + q + x)) + B;
      { ConcatAssoc(o, p + q, x); ConcatAssoc(o, p, q); }
      A + (o + p + q + x) + B;
      { ConcatAssoc(A, o + p + q, x); ConcatAssoc(A, o + p, q); ConcatAssoc(A, o, p); }
      A + o + p + q + x + B;
    }
  }

  lemma {:induction false} CheckCountIsLength(cs: seq<CheckResult>)
    ensures |ChecksProblems(cs)| == CheckCount(cs)
    decreases |cs|
  {
    if |cs| > 0 {
      CheckCountIsLength(cs[1..]);
      ChecksProblemsAppend([cs[0]], cs[1..]);
      assert [cs[0]] + cs[1..] == cs;
      assert [cs[0]][..0] == [];
    }
  }

  lemma {:induction false} ProblemCountIsLength(steps: seq<StepResult>)
    ensures |AllProblems(steps)| == ProblemCount(steps)
    decreases |steps|
  {
    if |steps| > 0 {
      ProblemCountIsLength(steps[1..]);
      CheckCountIsLength(steps[0].checks);
      AllProblemsAppend([steps[0]], steps[1..]);
      assert [steps[0]] + steps[1..] == steps;
      assert [steps[0]][..0] == [];
    }
  }

  /** A present step list yields exactly as many problems as all its lists hold, absent lists counting as empty. */
  lemma ProblemsCount(run: TestRun)
    requires run.steps.Some?
    ensures Problems(run).Ok? && |Problems(run).value| == ProblemCount(run.steps.value)
  {
    ProblemCountIsLength(run.steps.value);
  }

  lemma {:induction false} ChecksProblemsEmpty(cs: seq<CheckResult>)
    ensures |ChecksProblems(cs)| > 0 <==> exists j :: 0 <= j < |cs| && Len(cs[j].problems) > 0
    decreases |cs|
  {
    if |cs| > 0 {
      var init := cs[..|cs| - 1];
      ChecksProblemsEmpty(init);
      if exists j :: 0 <= j < |cs| && Len(cs[j].problems) > 0 {
        var j :| 0 <= j < |cs| && Len(cs[j].problems) > 0;
        if j < |cs| - 1 {
          assert init[j] == cs[j];
        }
      }
      if exists j :: 0 <= j < |init| && Len(init[j].problems) > 0 {
        var j :| 0 <= j < |init| && Len(init[j].problems) > 0;
        assert cs[j] == init[j];
      }
    }
  }

  lemma {:induction false} AllProblemsEmpty(steps: seq<StepResult>)
    ensures |AllProblems(steps)| > 0 <==> AnyProblemList(steps)
    decreases |steps|
  {
    if |steps| > 0 {
      var init := steps[..|steps| - 1];
      var last := steps[|steps| - 1];
      AllProblemsEmpty(init);
      ChecksProblemsEmpty(last.checks);
      if AnyProblemList(steps) {
        var i :| 0 <= i < |steps| &&
          (Len(steps[i].problems) > 0 ||
           exists j :: 0 <= j < |steps[i].checks| && Len(steps[i].checks[j].problems) > 0);
        if i < |steps| - 1 {
          assert init[i] == steps[i];
        }
      }
      if AnyProblemList(init) {
        var i :| 0 <= i < |init| &&
          (Len(init[i].problems) > 0 ||
           exists j :: 0 <= j < |init[i].checks| && Len(init[i].checks[j].problems) > 0);
        assert steps[i] == init[i];
      }
    }
  }

  /** `hasProblems()` is true exactly when some step or check reports a non-empty problem list. */
  lemma HasProblemsIff(run: TestRun)
    requires run.steps.Some?
    ensures HasProblems(run) == Ok(true) <==> AnyProblemList(run.steps.value)
    ensures HasProblems(run) == Ok(false) <==> !AnyProblemList(run.steps.value)
  {
    AllProblemsEmpty(run.steps.value);
  }

  /**
   * With checks on the last step, the verdict is the last check's status,
   * whatever the earlier steps, the earlier checks and the step's own status.
   */
  lemma HasPassedLastCheck(run: TestRun, pre: seq<StepResult>, st: StepResult,
                           cpre: seq<CheckResult>, c: CheckResult)
    requires run.steps == Some(pre + [st]) && st.checks == cpre + [c]
    ensures HasPassed(run) == Ok(c.status == Passed)
  {
    assert (pre + [st])[|pre|] == st;
    assert (cpre + [c])[|cpre|] == c;
  }

  /** Without checks on the last step, the verdict is that step's own status. */
  lemma HasPassedLastStep(run: TestRun, pre: seq<StepResult>, st: StepResult)
    requires run.steps == Some(pre + [st]) && st.checks == []
    ensures HasPassed(run) == Ok(st.status == Passed)
  {
    assert (pre + [st])[|pre|] == st;
  }

  /** Every status passed: the run passes. A failed verdict therefore names some step or check that did not pass. */
  lemma AllPassedPasses(run: TestRun)
    requires run.steps.Some? && |run.steps.value| > 0
    requires forall i :: 0 <= i < |run.steps.value| ==> run.steps.value[i].status == Passed
    requires forall i, j :: 0 <= i < |run.steps.value| && 0 <= j < |run.steps.value[i].checks| ==>
               run.steps.value[i].checks[j].status == Passed
    ensures HasPassed(run) == Ok(true)
  {
  }

  /** A single failed last check fails the run even when every other status passed. */
  lemma LastCheckDecides(run: TestRun, st: StepResult, c: CheckResult)
    requires run.steps == Some([st]) && st.status == Passed
    requires st.checks == [CheckResult(c.description, Passed, c.lastActionIndex, c.problems), c]
    requires c.status == Failed
    ensures HasPassed(run) == Ok(false)
  {
  }
}
