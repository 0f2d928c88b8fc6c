/**
 * The single-test console renderer: a spinner that advances every frame, a
 * header with the run's status, a 30-column progress bar over the steps, the
 * five most recent actions, the step and check tree and the problems found.
 *
 * A frame is the list of strings handed to `console.log` after a
 * `console.clear()`; the class keeps the history of frames it has drawn.
 * The interval timer is a set of live handles, and one firing of it is the
 * method `Tick`.
 */
module Renderer {
  import opened Wrappers
  import opened Types
  import opened Text
  import DataWrappers
  import OrderedMaps

  /** The ten braille spinner glyphs, in display order. */
  const SpinnerFrames: seq<string> := [
    "\U{280B}", "\U{2819}", "\U{2839}", "\U{2838}", "\U{283C}",
    "\U{2834}", "\U{2826}", "\U{2827}", "\U{2807}", "\U{280F}"]

  /** The number of spinner glyphs, by which the frame index wraps. */
  const SpinnerCount: nat := 10

  /** `(i + 1) % spinnerFrames.length`: the next spinner glyph, wrapping after the last. */
  function Advance(i: nat): (j: nat)
    ensures j < SpinnerCount
  {
    (i + 1) % SpinnerCount
  }

  /** The spinner index after `n` frames. */
  function AdvanceTimes(i: nat, n: nat): nat
  {
    if n == 0 then i else Advance(AdvanceTimes(i, n - 1))
  }

  lemma {:induction false} AdvanceTimesMod(i: nat, n: nat)
    requires i < SpinnerCount
    ensures AdvanceTimes(i, n) == (i + n) % SpinnerCount
  {
    if n > 0 {
      AdvanceTimesMod(i, n - 1);
      ModSucc(i + n - 1);
    }
  }

  lemma ModSucc(x: nat)
    ensures (x % SpinnerCount + 1) % SpinnerCount == (x + 1) % SpinnerCount
  {
    var q, r := x / SpinnerCount, x % SpinnerCount;
    assert x == SpinnerCount * q + r;
    if r + 1 < SpinnerCount {
      assert x + 1 == SpinnerCount * q + (r + 1);
    } else {
      assert x + 1 == SpinnerCount * (q + 1);
    }
  }

  /** The spinner shows all ten glyphs in turn: it is back at its glyph after ten frames and not before. */
  lemma SpinnerCycle(i: nat, n: nat)
    requires i < SpinnerCount && 0 < n
    ensures AdvanceTimes(i, n) == i <==> n % SpinnerCount == 0
  {
    AdvanceTimesMod(i, n);
  }

  const BarWidth: nat := 30

  const StartingLine: string := "\nTest run starting..."
  const RecentHeading: string := "\nRecent Actions:"
  const NoActionsLine: string := "  No actions yet"
  const ProgressHeading: string := "\nProgress:"
  const ProblemsHeading: string := "\nProblems:"
  const FrameEnd: string := "\n"

  /** The message of the `TypeError` raised by `steps.length` when the run has no steps list. */
  const ReadLengthOfUndefined: string := "Cannot read properties of undefined (reading 'length')"

  // ---------------------------------------------------------------------------
  // Glyph maps
  // ---------------------------------------------------------------------------

  /** `getStatusSymbol`: a check mark, a cross or an ellipsis. */
  function StatusSymbol(s: Status): string
  {
    match s
    case Passed => "\U{2713}"
    case Failed => "\U{2717}"
    case Pending => "\U{22EF}"
  }

  /** Which status a status glyph stands for. */
  function StatusOfSymbol(g: string): Option<Status>
  {
    if g == "\U{2713}" then Some(Passed)
    else if g == "\U{2717}" then Some(Failed)
    else if g == "\U{22EF}" then Some(Pending)
    else None
  }

  /** `getSeveritySymbol`: one coloured disc per severity. */
  function SeveritySymbol(s: Severity): string
  {
    match s
    case Critical => "\U{1F534}"
    case High => "\U{1F7E0}"
    case Medium => "\U{1F7E1}"
    case Low => "\U{1F7E2}"
    case Cosmetic => "\U{1F535}"
  }

  function SeverityOfSymbol(g: string): Option<Severity>
  {
    if g == "\U{1F534}" then Some(Critical)
    else if g == "\U{1F7E0}" then Some(High)
    else if g == "\U{1F7E1}" then Some(Medium)
    else if g == "\U{1F7E2}" then Some(Low)
    else if g == "\U{1F535}" then Some(Cosmetic)
    else None
  }

  /** The wire spelling of a severity, printed in parentheses after a problem's title. */
  function SeverityName(s: Severity): string
  {
    match s
    case Critical => "critical"
    case High => "high"
    case Medium => "medium"
    case Low => "low"
    case Cosmetic => "cosmetic"
  }

  /** The wire spelling of an action variant. */
  function VariantName(v: ActionVariant): string
  {
    match v
    case Load => "load"
    case Click => "click"
    case Hover => "hover"
    case Type => "type"
    case Scroll => "scroll"
    case Wait => "wait"
    case Back => "back"
  }

  /** Every status has its own glyph: the glyph printed identifies the status. */
  lemma StatusSymbolRoundTrip(s: Status)
    ensures |StatusSymbol(s)| == 1
    ensures StatusOfSymbol(StatusSymbol(s)) == Some(s)
  {
    match s
    case Passed =>
    case Failed =>
      assert StatusSymbol(s)[0] != "\U{2713}"[0];
    case Pending =>
      assert StatusSymbol(s)[0] != "\U{2713}"[0];
      assert StatusSymbol(s)[0] != "\U{2717}"[0];
  }

  /** Every severity has its own glyph. */
  lemma SeveritySymbolRoundTrip(s: Severity)
    ensures |SeveritySymbol(s)| == 1
    ensures SeverityOfSymbol(SeveritySymbol(s)) == Some(s)
  {
    var g := SeveritySymbol(s);
    match s
    case Critical =>
    case High =>
      assert g[0] != "\U{1F534}"[0];
    case Medium =>
      assert g[0] != "\U{1F534}"[0] && g[0] != "\U{1F7E0}"[0];
    case Low =>
      assert g[0] != "\U{1F534}"[0] && g[0] != "\U{1F7E0}"[0] && g[0] != "\U{1F7E1}"[0];
    case Cosmetic =>
      assert g[0] != "\U{1F534}"[0] && g[0] != "\U{1F7E0}"[0] && g[0] != "\U{1F7E1}"[0] && g[0] != "\U{1F7E2}"[0];
  }

  // ---------------------------------------------------------------------------
  // Active step, progress bar, recent actions
  // ---------------------------------------------------------------------------

  /** `steps.findIndex(s => s.status === "pending")`. */
  function FindPending(steps: seq<StepResult>): (r: int)
    ensures -1 <= r < |steps|
    ensures r == -1 <==> forall j :: 0 <= j < |steps| ==> steps[j].status != Pending
    ensures r >= 0 ==> steps[r].status == Pending && forall j :: 0 <= j < r ==> steps[j].status != Pending
  {
    if |steps| == 0 then -1
    else if steps[0].status == Pending then 0
    else
      var k := FindPending(steps[1..]);
      if k < 0 then -1 else k + 1
  }

  /** The step the header and the arrow point at: the first pending one, or else the last one. */
  function ActiveStepIndex(steps: seq<StepResult>): (r: int)
    ensures -1 <= r < |steps|
    ensures r == -1 <==> |steps| == 0
    ensures (exists j :: 0 <= j < |steps| && steps[j].status == Pending) ==>
      steps[r].status == Pending && forall j :: 0 <= j < r ==> steps[j].status != Pending
    ensures (forall j :: 0 <= j < |steps| ==> steps[j].status != Pending) ==> r == |steps| - 1
  {
    var current := FindPending(steps);
    if current >= 0 then current else |steps| - 1
  }

  /** The number of `=` cells: the ratio `current / total` of the bar's width, rounded down. */
  function Filled(current: nat, total: nat): nat
    requires 0 < total
  {
    current * BarWidth / total
  }

  /**
   * `createProgressBar(current, total)`. The caller passes the active step
   * number, so `current <= total`; with no steps both are 0, the JavaScript
   * quotient is NaN and both `repeat`s print nothing.
   */
  function ProgressBar(current: nat, total: nat): string
    requires current <= total
  {
    if total == 0 then "[>]"
    else
      var filled := Filled(current, total);
      "[" + Repeat('=', filled) + ">" + Repeat(' ', BarWidth - filled) + "]"
  }

  lemma FilledBounds(current: nat, total: nat)
    requires 0 < total && current <= total
    ensures 0 <= Filled(current, total) <= BarWidth
  {
    assert current * BarWidth <= total * BarWidth;
  }

  /** The bar always occupies 33 columns: brackets, `filled` `=`, the head `>`, and spaces. */
  lemma ProgressBarShape(current: nat, total: nat)
    requires 0 < total && current <= total
    ensures Filled(current, total) <= BarWidth
    ensures |ProgressBar(current, total)| == BarWidth + 3
    ensures ProgressBar(current, total)[0] == '[' && ProgressBar(current, total)[BarWidth + 2] == ']'
    ensures ProgressBar(current, total)[Filled(current, total) + 1] == '>'
    ensures forall i :: 1 <= i <= Filled(current, total) ==> ProgressBar(current, total)[i] == '='
    ensures forall i :: Filled(current, total) + 2 <= i < BarWidth + 2 ==> ProgressBar(current, total)[i] == ' '
  {
    FilledBounds(current, total);
    var f := Filled(current, total);
    var bar := ProgressBar(current, total);
    assert bar == "[" + Repeat('=', f) + ">" + Repeat(' ', BarWidth - f) + "]";
    forall i | 1 <= i <= f ensures bar[i] == '=' {
      assert bar[i] == Repeat('=', f)[i - 1];
    }
    forall i | f + 2 <= i < BarWidth + 2 ensures bar[i] == ' ' {
      assert bar[i] == Repeat(' ', BarWidth - f)[i - f - 2];
    }
  }

  /** The bar never shrinks as the active step moves forward, is empty at 0 and full at the last step. */
  lemma FilledMonotone(c1: nat, c2: nat, total: nat)
    requires 0 < total && c1 <= c2 <= total
    ensures Filled(c1, total) <= Filled(c2, total)
    ensures Filled(0, total) == 0 && Filled(total, total) == BarWidth
  {
    assert c1 * BarWidth <= c2 * BarWidth;
    DivMonotone(c1 * BarWidth, c2 * BarWidth, total);
    assert total * BarWidth == BarWidth * total;
    DivExact(total, BarWidth);
  }

  lemma DivExact(d: nat, k: nat)
    requires 0 < d
    ensures (k * d) / d == k
  {
    var q, r := (k * d) / d, (k * d) % d;
    assert k * d == d * q + r && 0 <= r < d;
    assert d * (k - q) == r;
    MulCancel(d, k - q, 1);
    MulCancel(d, -1, k - q);
  }

  lemma DivMonotone(a: nat, b: nat, d: nat)
    requires 0 < d && a <= b
    ensures a / d <= b / d
  {
    assert a == d * (a / d) + a % d;
    assert b == d * (b / d) + b % d;
    assert d * (a / d) < d * (b / d + 1);
    MulCancel(d, a / d, b / d + 1);
  }

  lemma MulCancel(d: int, x: int, y: int)
    requires 0 < d && d * x < d * y
    ensures x < y
  {
    if x >= y {
      assert false;
    }
  }

  /** `actions.slice(-5)`: at most the five last actions. */
  function RecentActions(actions: seq<TestAction>): (r: seq<TestAction>)
    ensures |r| == if |actions| < 5 then |actions| else 5
    ensures r == actions[|actions| - |r|..]
  {
    if |actions| <= 5 then actions else actions[|actions| - 5..]
  }

  /** Appending an action slides the window: the oldest one drops out once five are shown. */
  lemma RecentActionsSlide(actions: seq<TestAction>, a: TestAction)
    ensures RecentActions(actions + [a]) ==
      (if |actions| < 5 then RecentActions(actions) else RecentActions(actions)[1..]) + [a]
  {
    var n := |actions|;
    var longer := actions + [a];
    if n < 5 {
      assert RecentActions(longer) == longer;
      assert RecentActions(actions) == actions;
    } else {
      assert RecentActions(longer) == longer[n - 4..];
      assert RecentActions(actions) == actions[n - 5..];
      assert longer[n - 4..] == actions[n - 4..] + [a];
      assert actions[n - 5..][1..] == actions[n - 4..];
    }
  }

  // ---------------------------------------------------------------------------
  // Frame lines
  // ---------------------------------------------------------------------------

  function ActionLine(a: TestAction): string
  {
    "  - " + VariantName(a.variant) + ": " + a.description
  }

  function ActionItems(actions: seq<TestAction>): seq<string>
  {
    if |actions| == 0 then [] else ActionItems(actions[..|actions| - 1]) + [ActionLine(actions[|actions| - 1])]
  }

  /** The lines under "Recent Actions:". */
  function ActionLines(recent: seq<TestAction>): seq<string>
  {
    if |recent| == 0 then [NoActionsLine] else ActionItems(recent)
  }

  function CheckLine(c: CheckResult): string
  {
    "    " + StatusSymbol(c.status) + " Check: " + c.description
  }

  function CheckLines(cs: seq<CheckResult>): seq<string>
  {
    if |cs| == 0 then [] else CheckLines(cs[..|cs| - 1]) + [CheckLine(cs[|cs| - 1])]
  }

  /** The line of step `i` (0-based), with an arrow when it is the active step. */
  function StepLine(st: StepResult, i: nat, active: int): string
  {
    (if i == active then "\U{2192}" else " ") + " " + StatusSymbol(st.status)
      + " Step " + NatToString(i + 1) + ": " + st.description
  }

  /** The lines under "Progress:": each step followed by its checks. */
  function StepLines(steps: seq<StepResult>, active: int): seq<string>
  {
    if |steps| == 0 then []
    else
      var i := |steps| - 1;
      StepLines(steps[..i], active) + [StepLine(steps[i], i, active)] + CheckLines(steps[i].checks)
  }

  /** The severity glyph, the title and the severity's name. */
  function ProblemHeadLine(p: ProblemData): string
  {
    "  " + SeveritySymbol(p.severity) + " " + p.title + " (" + SeverityName(p.severity) + ")"
  }

  function ExpectedLine(p: ProblemData): string
  {
    "    Expected: " + p.expectedResult
  }

  function ActualLine(p: ProblemData): string
  {
    "    Actual: " + p.actualResult
  }

  /** The three lines shown for one problem. */
  function ProblemBlock(p: ProblemData): seq<string>
  {
    [ProblemHeadLine(p), ExpectedLine(p), ActualLine(p)]
  }

  /** The lines of every item, in order: `f(xs[0]) + f(xs[1]) + ...`. */
  function Blocks<T, U>(xs: seq<T>, f: T -> seq<U>): seq<U>
  {
    if |xs| == 0 then [] else Blocks(xs[..|xs| - 1], f) + f(xs[|xs| - 1])
  }

  /** When every item has three lines, the lines of item `i` start at `3 * i`. */
  lemma {:induction false} BlocksOfThree<T, U>(xs: seq<T>, f: T -> seq<U>)
    requires forall x :: |f(x)| == 3
    ensures |Blocks(xs, f)| == 3 * |xs|
    ensures forall i, j :: 0 <= i < |xs| && 0 <= j < 3 ==> Blocks(xs, f)[3 * i + j] == f(xs[i])[j]
  {
    if |xs| > 0 {
      var n := |xs| - 1;
      BlocksOfThree(xs[..n], f);
      forall i, j | 0 <= i < |xs| && 0 <= j < 3 ensures Blocks(xs, f)[3 * i + j] == f(xs[i])[j] {
        if i < n {
          assert xs[..n][i] == xs[i];
        }
      }
    }
  }

  function ProblemLines(ps: seq<ProblemData>): seq<string>
  {
    Blocks(ps, ProblemBlock)
  }

  /** The problems section, present only when there is at least one problem. */
  function ProblemSection(ps: seq<ProblemData>): seq<string>
  {
    if |ps| > 0 then [ProblemsHeading] + ProblemLines(ps) else []
  }

  /** The bracketed status of the header; asking a finished run whether it passed can throw. */
  function StatusLabel(run: TestRun): (r: Result<string, Error>)
    ensures r.Err? <==> run.isDone && run.steps == Some([])
    ensures !run.isDone ==> r == Ok("RUNNING")
    ensures run.isDone && r.Ok? ==> r == Ok(if DataWrappers.HasPassed(run) == Ok(true) then "PASSED" else "FAILED")
  {
    if !run.isDone then Ok("RUNNING")
    else
      match DataWrappers.HasPassed(run)
      case Ok(passed) => Ok(if passed then "PASSED" else "FAILED")
      case Err(e) => Err(e)
  }

  function HeaderLine(spinner: string, name: string, run: TestRun, tag: string): string
  {
    (if run.isDone then "" else spinner) + "Test: " + name + " [" + tag + "]"
  }

  function BarLine(active: int, total: nat, actionCount: nat): string
    requires -1 <= active < total
  {
    ProgressBar((active + 1) as nat, total) + " Step " + NatToString((active + 1) as nat)
      + "/" + NatToString(total) + " | Actions: " + NatToString(actionCount)
  }

  /** The lines above the problems section: header, bar, recent actions and the step tree. */
  function RunTop(spinner: string, name: string, run: TestRun, tag: string): seq<string>
    requires run.steps.Some?
  {
    [HeaderLine(spinner, name, run, tag)] + RunBody(run)
  }

  function RunBody(run: TestRun): seq<string>
    requires run.steps.Some?
  {
    var steps := run.steps.value;
    var actions := OrEmpty(run.actions);
    var active := ActiveStepIndex(steps);
    [BarLine(active, |steps|, |actions|), RecentHeading] + ActionLines(RecentActions(actions))
      + [ProgressHeading] + StepLines(steps, active)
  }

  /** A complete frame for a polled run whose status could be read. */
  function RunFrame(spinner: string, name: string, run: TestRun, tag: string): seq<string>
    requires run.steps.Some?
  {
    RunTop(spinner, name, run, tag) + ProblemSection(DataWrappers.Problems(run).value) + [FrameEnd]
  }

  /**
   * What one `renderFrame` prints, given the spinner index it has just
   * advanced to, the test's name and the last polled run; an error is the
   * exception thrown part-way, after which nothing of the frame is printed.
   */
  function FrameLines(frame: nat, name: string, lastRun: Option<TestRun>): (r: Result<seq<string>, Error>)
    requires frame < |SpinnerFrames|
    ensures r.Err? <==>
      lastRun.Some? && (lastRun.value.steps.None? || (lastRun.value.isDone && lastRun.value.steps == Some([])))
    ensures lastRun.Some? && lastRun.value.steps.None? ==> r == Err(TypeError(ReadLengthOfUndefined))
  {
    var spinner := SpinnerFrames[frame] + " ";
    match lastRun
    case None => Ok([spinner + "Test: " + name, StartingLine])
    case Some(run) =>
      if run.steps.None? then Err(TypeError(ReadLengthOfUndefined))
      else
        match StatusLabel(run)
        case Err(e) => Err(e)
        case Ok(tag) => Ok(RunFrame(spinner, name, run, tag))
  }

  /** What the console shows after a frame: its lines, or nothing when the frame threw after the clear. */
  function Printed(r: Result<seq<string>, Error>): seq<string>
  {
    match r
    case Ok(lines) => lines
    case Err(_) => []
  }

  function ErrorOf(r: Result<seq<string>, Error>): Option<Error>
  {
    match r
    case Ok(_) => None
    case Err(e) => Some(e)
  }

  // ---------------------------------------------------------------------------
  // The renderer object
  // ---------------------------------------------------------------------------

  class TestRenderer {
    var spinnerFrameIndex: nat
    /** The handle of the render interval, when one is set. */
    var renderInterval: Option<nat>
    var lastRun: Option<TestRun>
    var testCase: Option<CaseInfo>
    var isActive: bool
    /** The interval handles the runtime would still fire. */
    var liveIntervals: set<nat>
    /** The handle the next `setInterval` returns. */
    var nextHandle: nat
    /** Everything printed, one entry per `console.clear()`. */
    var frames: seq<seq<string>>

    /** The spinner index is a valid glyph index, and the only live interval is the stored one. */
    predicate Valid()
      reads this
    {
      && spinnerFrameIndex < SpinnerCount == |SpinnerFrames|
      && liveIntervals == (if renderInterval.Some? then {renderInterval.value} else {})
      && (renderInterval.Some? ==> renderInterval.value < nextHandle)
    }

    /** The state the constructor leaves: spinner at 0, no interval, no run, no test case, inactive, nothing drawn. */
    ghost predicate Initial()
      reads this
    {
      && spinnerFrameIndex == 0 && renderInterval.None? && lastRun.None? && testCase.None?
      && !isActive && liveIntervals == {} && nextHandle == 0 && frames == []
    }

    /** Every field except `lastRun` holds its earlier value. */
    twostate predicate KeepsAllButRun()
      reads this
    {
      && spinnerFrameIndex == old(spinnerFrameIndex) && renderInterval == old(renderInterval)
      && testCase == old(testCase) && isActive == old(isActive)
      && liveIntervals == old(liveIntervals) && nextHandle == old(nextHandle) && frames == old(frames)
    }

    constructor()
      ensures Valid() && Initial()
    {
      spinnerFrameIndex := 0;
      renderInterval := None;
      lastRun := None;
      testCase := None;
      isActive := false;
      liveIntervals := {};
      nextHandle := 0;
      frames := [];
    }

    /** `startRendering(testCase)`: records the test, activates, and sets an interval only when none is set. */
    method StartRendering(tc: CaseInfo)
      requires Valid()
      modifies this
      ensures Valid()
      ensures testCase == Some(tc) && isActive
      ensures old(renderInterval).Some? ==>
        renderInterval == old(renderInterval) && liveIntervals == old(liveIntervals) && nextHandle == old(nextHandle)
      ensures old(renderInterval).None? ==>
        renderInterval == Some(old(nextHandle)) && liveIntervals == {old(nextHandle)} && nextHandle == old(nextHandle) + 1
      ensures spinnerFrameIndex == old(spinnerFrameIndex) && lastRun == old(lastRun) && frames == old(frames)
    {
      testCase := Some(tc);
      isActive := true;
      if renderInterval.None? {
        renderInterval := Some(nextHandle);
        liveIntervals := liveIntervals + {nextHandle};
        nextHandle := nextHandle + 1;
      }
    }

    /** `updateData(run)`: only the stored run changes. */
    method UpdateData(run: TestRun)
      requires Valid()
      modifies this
      ensures Valid()
      ensures lastRun == Some(run) && KeepsAllButRun()
    {
      lastRun := Some(run);
    }

    /**
     * `renderFrame()`: with no test case it does nothing; otherwise it advances
     * the spinner, clears the console and prints `FrameLines`.
     */
    method RenderFrame() returns (err: Option<Error>)
      requires Valid()
      modifies this
      ensures Valid()
      ensures renderInterval == old(renderInterval) && lastRun == old(lastRun) && testCase == old(testCase)
      ensures isActive == old(isActive) && liveIntervals == old(liveIntervals) && nextHandle == old(nextHandle)
      ensures old(testCase).None? ==>
        spinnerFrameIndex == old(spinnerFrameIndex) && frames == old(frames) && err.None?
      ensures old(testCase).Some? ==>
        && spinnerFrameIndex == Advance(old(spinnerFrameIndex))
        && frames == old(frames) + [Printed(FrameLines(spinnerFrameIndex, testCase.value.name, lastRun))]
        && err == ErrorOf(FrameLines(spinnerFrameIndex, testCase.value.name, lastRun))
    {
      if testCase.None? {
        return None;
      }
      spinnerFrameIndex := Advance(spinnerFrameIndex);
      var spinner := SpinnerFrames[spinnerFrameIndex] + " ";
      var name := testCase.value.name;
      if lastRun.None? {
        frames := frames + [[spinner + "Test: " + name, StartingLine]];
        return None;
      }
      var run := lastRun.value;
      if run.steps.None? {
        frames := frames + [[]];
        return Some(TypeError(ReadLengthOfUndefined));
      }
      var steps := run.steps.value;
      var actions := OrEmpty(run.actions);
      var active := ActiveStepIndex(steps);
      var tag := StatusLabel(run);
      if tag.Err? {
        frames := frames + [[]];
        return Some(tag.error);
      }
      var body := [BarLine(active, |steps|, |actions|), RecentHeading];
      body := LogActions(body, RecentActions(actions));
      body := body + [ProgressHeading];
      body := LogSteps(body, steps, active);
      assert body == RunBody(run);
      var out := [HeaderLine(spinner, name, run, tag.value)] + body;
      var problems := DataWrappers.GetProblems(run);
      out := LogProblems(out, problems.value);
      out := out + [FrameEnd];
      assert out == RunFrame(spinner, name, run, tag.value);
      frames := frames + [out];
      return None;
    }

    /** `stopRendering()`: deactivates, clears the interval, and redraws only when a run and a test are known. */
    method StopRendering() returns (err: Option<Error>)
      requires Valid()
      modifies this
      ensures Valid()
      ensures !isActive && renderInterval.None? && liveIntervals == {}
      ensures lastRun == old(lastRun) && testCase == old(testCase) && nextHandle == old(nextHandle)
      ensures old(lastRun).Some? && old(testCase).Some? ==>
        && spinnerFrameIndex == Advance(old(spinnerFrameIndex))
        && frames == old(frames) + [Printed(FrameLines(spinnerFrameIndex, testCase.value.name, lastRun))]
        && err == ErrorOf(FrameLines(spinnerFrameIndex, testCase.value.name, lastRun))
      ensures !(old(lastRun).Some? && old(testCase).Some?) ==>
        spinnerFrameIndex == old(spinnerFrameIndex) && frames == old(frames) && err.None?
    {
      isActive := false;
      if renderInterval.Some? {
        liveIntervals := liveIntervals - {renderInterval.value};
        renderInterval := None;
      }
      err := None;
      if lastRun.Some? && testCase.Some? {
        err := RenderFrame();
      }
    }

    /** The frame the next `renderFrame` would print: the one for the following spinner glyph. */
    ghost function NextFrame(): Result<seq<string>, Error>
      reads this
      requires Valid() && testCase.Some?
    {
      FrameLines(Advance(spinnerFrameIndex), testCase.value.name, lastRun)
    }

    /** Whether the stored run says it is finished (`this.lastRun?.isDone()`). */
    predicate RunIsDone()
      reads this
    {
      lastRun.Some? && lastRun.value.isDone
    }

    /**
     * One firing of the render interval: while active with a test it draws a
     * frame, and once the last run is done it stops rendering, which draws the
     * final frame again. A frame that throws ends the callback there.
     */
    method Tick() returns (err: Option<Error>, ghost first: Result<seq<string>, Error>)
      requires Valid() && renderInterval.Some?
      modifies this
      ensures Valid()
      ensures lastRun == old(lastRun) && testCase == old(testCase) && nextHandle == old(nextHandle)
      ensures !(old(isActive) && old(testCase).Some?) ==>
        && spinnerFrameIndex == old(spinnerFrameIndex) && frames == old(frames) && err.None?
        && isActive == old(isActive) && renderInterval == old(renderInterval)
      ensures old(isActive) && old(testCase).Some? ==> first == old(NextFrame())
      ensures old(isActive) && old(testCase).Some? && first.Err? ==>
        && err == ErrorOf(first) && frames == old(frames) + [[]]
        && spinnerFrameIndex == Advance(old(spinnerFrameIndex))
        && isActive && renderInterval == old(renderInterval)
      ensures old(isActive) && old(testCase).Some? && first.Ok? && RunIsDone() ==>
        && err.None? && frames == old(frames) + [first.value, first.value]
        && spinnerFrameIndex == Advance(Advance(old(spinnerFrameIndex)))
        && !isActive && renderInterval.None? && liveIntervals == {}
      ensures old(isActive) && old(testCase).Some? && first.Ok? && !RunIsDone() ==>
        && err.None? && frames == old(frames) + [first.value]
        && spinnerFrameIndex == Advance(old(spinnerFrameIndex))
        && isActive && renderInterval == old(renderInterval)
    {
      err, first := None, Ok([]);
      if isActive && testCase.Some? {
        ghost var before := frames;
        first := NextFrame();
        err := RenderFrame();
        if err.Some? {
          return;
        }
        if RunIsDone() {
          ghost var i := spinnerFrameIndex;
          ghost var middle := frames;
          err := StopRendering();
          DoneFrameIgnoresSpinner(i, spinnerFrameIndex, testCase.value.name, lastRun.value);
          assert frames == middle + [first.value];
        }
      }
    }
  }

  /** Appends the recent-action lines, or "No actions yet" when there are none. */
  method LogActions(out: seq<string>, recent: seq<TestAction>) returns (r: seq<string>)
    ensures r == out + ActionLines(recent)
  {
    if |recent| == 0 {
      return out + [NoActionsLine];
    }
    r := out;
    var i := 0;
    while i < |recent|
      invariant 0 <= i <= |recent|
      invariant r == out + ActionItems(recent[..i])
    {
      assert recent[..i + 1][..i] == recent[..i];
      r := r + [ActionLine(recent[i])];
      i := i + 1;
    }
    assert recent[..|recent|] == recent;
  }

  /** Appends the line of every check of a step. */
  method LogChecks(out: seq<string>, cs: seq<CheckResult>) returns (r: seq<string>)
    ensures r == out + CheckLines(cs)
  {
    r := out;
    var j := 0;
    while j < |cs|
      invariant 0 <= j <= |cs|
      invariant r == out + CheckLines(cs[..j])
    {
      assert cs[..j + 1][..j] == cs[..j];
      r := r + [CheckLine(cs[j])];
      j := j + 1;
    }
    assert cs[..|cs|] == cs;
  }

  /** Appends the step tree: each step's line, then its checks. */
  method LogSteps(out: seq<string>, steps: seq<StepResult>, active: int) returns (r: seq<string>)
    ensures r == out + StepLines(steps, active)
  {
    r := out;
    var i := 0;
    while i < |steps|
      invariant 0 <= i <= |steps|
      invariant r == out + StepLines(steps[..i], active)
    {
      assert steps[..i + 1][..i] == steps[..i];
      assert StepLines(steps[..i + 1], active) ==
        StepLines(steps[..i], active) + [StepLine(steps[i], i, active)] + CheckLines(steps[i].checks);
      r := r + [StepLine(steps[i], i, active)];
      r := LogChecks(r, steps[i].checks);
      i := i + 1;
    }
    assert steps[..|steps|] == steps;
  }

  /** Appends the problems section: nothing when there are no problems. */
  method LogProblems(out: seq<string>, ps: seq<ProblemData>) returns (r: seq<string>)
    ensures r == out + ProblemSection(ps)
  {
    if |ps| == 0 {
      return out;
    }
    var head := out + [ProblemsHeading];
    r := head;
    var i := 0;
    while i < |ps|
      invariant 0 <= i <= |ps|
      invariant r == head + Blocks(ps[..i], ProblemBlock)
    {
      assert Blocks(ps[..i + 1], ProblemBlock) == Blocks(ps[..i], ProblemBlock) + ProblemBlock(ps[i]) by {
        assert ps[..i + 1][..i] == ps[..i];
      }
      OrderedMaps.ConcatAssoc(head, Blocks(ps[..i], ProblemBlock), ProblemBlock(ps[i]));
      r := r + ProblemBlock(ps[i]);
      i := i + 1;
    }
    assert ps[..|ps|] == ps;
    OrderedMaps.ConcatAssoc(out, [ProblemsHeading], ProblemLines(ps));
  }

  // ---------------------------------------------------------------------------
  // Properties of a frame
  // ---------------------------------------------------------------------------

  /** Before the first poll the frame is the name line with the spinner, then "Test run starting...". */
  lemma FrameWithoutRun(frame: nat, name: string)
    requires frame < |SpinnerFrames|
    ensures FrameLines(frame, name, None) == Ok([SpinnerFrames[frame] + " " + "Test: " + name, StartingLine])
    ensures |FrameLines(frame, name, None).value| == 2
  {
  }

  /** While the run is going, the header starts with the spinner glyph and ends with "[RUNNING]". */
  lemma HeaderWhileRunning(frame: nat, name: string, run: TestRun)
    requires frame < |SpinnerFrames| && run.steps.Some? && !run.isDone
    ensures FrameLines(frame, name, Some(run)).Ok?
    ensures FrameLines(frame, name, Some(run)).value[0] ==
      SpinnerFrames[frame] + " " + "Test: " + name + " [" + "RUNNING" + "]"
  {
    FrameStartsWithHeader(frame, name, run);
  }

  /** Once the run is done the header has no spinner and says whether it passed. */
  lemma HeaderWhenDone(frame: nat, name: string, run: TestRun)
    requires frame < |SpinnerFrames| && run.steps.Some? && run.steps.value != [] && run.isDone
    ensures FrameLines(frame, name, Some(run)).Ok?
    ensures FrameLines(frame, name, Some(run)).value[0] ==
      "" + "Test: " + name + " [" + (if DataWrappers.HasPassed(run) == Ok(true) then "PASSED" else "FAILED") + "]"
  {
    FrameStartsWithHeader(frame, name, run);
  }

  /** A polled run whose status could be read is drawn by `RunFrame`. */
  lemma FrameOfRun(frame: nat, name: string, run: TestRun)
    requires frame < |SpinnerFrames| && run.steps.Some? && !(run.isDone && run.steps == Some([]))
    ensures StatusLabel(run).Ok?
    ensures FrameLines(frame, name, Some(run)) == Ok(RunFrame(SpinnerFrames[frame] + " ", name, run, StatusLabel(run).value))
  {
  }

  lemma FrameStartsWithHeader(frame: nat, name: string, run: TestRun)
    requires frame < |SpinnerFrames| && run.steps.Some? && !(run.isDone && run.steps == Some([]))
    ensures FrameLines(frame, name, Some(run)).Ok?
    ensures FrameLines(frame, name, Some(run)).value[0] ==
      HeaderLine(SpinnerFrames[frame] + " ", name, run, StatusLabel(run).value)
  {
    var spinner := SpinnerFrames[frame] + " ";
    var tag := StatusLabel(run).value;
    var top := RunTop(spinner, name, run, tag);
    FrameOfRun(frame, name, run);
    assert RunFrame(spinner, name, run, tag) == top + ProblemSection(DataWrappers.Problems(run).value) + [FrameEnd];
    assert top[0] == HeaderLine(spinner, name, run, tag);
  }

  /** A finished run's frame does not depend on the spinner, so the final redraw repeats the last frame. */
  lemma DoneFrameIgnoresSpinner(i: nat, j: nat, name: string, run: TestRun)
    requires i < |SpinnerFrames| && j < |SpinnerFrames| && run.isDone
    ensures FrameLines(i, name, Some(run)) == FrameLines(j, name, Some(run))
  {
  }

  /** Each problem contributes three lines, in the order of `getProblems`, showing its fields. */
  lemma ProblemLinesInOrder(ps: seq<ProblemData>)
    ensures |ProblemLines(ps)| == 3 * |ps|
    ensures forall i :: 0 <= i < |ps| ==>
      && ProblemLines(ps)[3 * i] == ProblemHeadLine(ps[i])
      && ProblemLines(ps)[3 * i + 1] == ExpectedLine(ps[i])
      && ProblemLines(ps)[3 * i + 2] == ActualLine(ps[i])
  {
    BlocksOfThree(ps, ProblemBlock);
    forall i | 0 <= i < |ps|
      ensures ProblemLines(ps)[3 * i] == ProblemHeadLine(ps[i])
      ensures ProblemLines(ps)[3 * i + 1] == ExpectedLine(ps[i])
      ensures ProblemLines(ps)[3 * i + 2] == ActualLine(ps[i])
    {
      assert ProblemLines(ps)[3 * i + 0] == ProblemBlock(ps[i])[0];
      assert ProblemLines(ps)[3 * i + 1] == ProblemBlock(ps[i])[1];
      assert ProblemLines(ps)[3 * i + 2] == ProblemBlock(ps[i])[2];
    }
  }

  /** The problems section lists every problem of the run, in order; it is absent when there are none. */
  lemma FrameListsProblems(frame: nat, name: string, run: TestRun)
    requires frame < |SpinnerFrames| && run.steps.Some? && !(run.isDone && run.steps == Some([]))
    ensures var ps := DataWrappers.Problems(run).value;
      && FrameLines(frame, name, Some(run)).Ok?
      && var lines := FrameLines(frame, name, Some(run)).value;
      && |lines| >= 3 * |ps| + 1
      && lines[|lines| - 1] == FrameEnd
      && (|ps| == 0 ==> lines[..|lines| - 1] == RunTop(SpinnerFrames[frame] + " ", name, run, StatusLabel(run).value))
      && (|ps| > 0 ==> |lines| >= 3 * |ps| + 2 && lines[|lines| - 3 * |ps| - 2] == ProblemsHeading
                       && lines[|lines| - 3 * |ps| - 1..|lines| - 1] == ProblemLines(ps))
  {
    var ps := DataWrappers.Problems(run).value;
    ProblemLinesInOrder(ps);
    var spinner := SpinnerFrames[frame] + " ";
    var tag := StatusLabel(run).value;
    var top := RunTop(spinner, name, run, tag);
    var sec := ProblemSection(ps);
    FrameOfRun(frame, name, run);
    var lines := FrameLines(frame, name, Some(run)).value;
    assert lines == top + sec + [FrameEnd];
    if |ps| > 0 {
      assert sec == [ProblemsHeading] + ProblemLines(ps);
      SectionAt(top, ProblemsHeading, ProblemLines(ps), FrameEnd);
    } else {
      assert sec == [];
      assert lines[..|lines| - 1] == top;
    }
  }

  lemma SectionAt(top: seq<string>, heading: string, body: seq<string>, end: string)
    ensures var lines := top + ([heading] + body) + [end];
      && lines[|lines| - |body| - 2] == heading
      && lines[|lines| - |body| - 1..|lines| - 1] == body
      && lines[|lines| - 1] == end
  {
    var lines := top + ([heading] + body) + [end];
    assert lines[|top|] == heading;
    assert lines[|top| + 1..|top| + 1 + |body|] == body;
  }

  /** Recent actions are the last ones in their original order; "No actions yet" when there are none. */
  lemma RecentActionLines(actions: seq<TestAction>)
    ensures |actions| == 0 ==> ActionLines(RecentActions(actions)) == [NoActionsLine]
    ensures |actions| > 0 ==> |ActionLines(RecentActions(actions))| == |RecentActions(actions)|
    ensures forall k :: 0 <= k < |RecentActions(actions)| ==>
      ActionLines(RecentActions(actions))[k] == ActionLine(actions[|actions| - |RecentActions(actions)| + k])
  {
    var r := RecentActions(actions);
    ActionItemsPointwise(r);
  }

  lemma {:induction false} ActionItemsPointwise(xs: seq<TestAction>)
    ensures |ActionItems(xs)| == |xs|
    ensures forall k :: 0 <= k < |xs| ==> ActionItems(xs)[k] == ActionLine(xs[k])
  {
    if |xs| > 0 {
      ActionItemsPointwise(xs[..|xs| - 1]);
    }
  }
}
