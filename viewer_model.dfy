/**
 * The values behind the multi-test viewer: the per-test execution state and
 * its status transitions, the registry of test cases it walks, the tallies
 * and the failure summary it prints, and its clock formatting.
 */
module ViewerModel {
  import opened Wrappers
  import Types
  import opened Text
  import opened OrderedMaps
  import Renderer

  /** `'pending' | 'running' | 'passed' | 'failed'`. */
  datatype TestStatus = Pending | Running | Passed | Failed

  type TestCase = Types.CaseInfo

  /**
   * `TestExecutionState`. Optional fields are `Option`s; `error` holds the
   * message of the stored `Error`, the only part of it the viewer reads.
   */
  datatype ExecState = ExecState(
    testCase: TestCase,
    status: TestStatus,
    displayName: string,
    renderer: Option<Renderer.TestRenderer>,
    startTime: Option<int>,
    endTime: Option<int>,
    error: Option<string>,
    url: Option<string>)

  /** A fresh state: pending, shown under `name`, nothing else set. */
  function PendingState(tc: TestCase, name: string): (st: ExecState)
    ensures st.status == Pending && st.testCase == tc && st.displayName == name
    ensures st.renderer.None? && st.startTime.None? && st.endTime.None? && st.error.None? && st.url.None?
  {
    ExecState(tc, Pending, name, None, None, None, None, None)
  }

  /** `!state.url`: unset, or set to the empty string. */
  predicate NoUrl(url: Option<string>)
  {
    url.None? || url.value == ""
  }

  /** `status === 'failed' && error ? { error } : {}`: the error that a transition records. */
  function RecordedError(status: TestStatus, error: Option<string>, previous: Option<string>): Option<string>
  {
    if status == Failed && error.Some? then error else previous
  }

  /**
   * The state `updateTestStatus` creates for a registered test that had
   * none: shown under its own id, with the start time and the test's URL when
   * it starts running, and the error when it fails with one.
   */
  function CreatedState(tc: TestCase, status: TestStatus, error: Option<string>, now: int): (st: ExecState)
  {
    ExecState(tc, status, tc.id, None,
      if status == Running then Some(now) else None,
      None,
      RecordedError(status, error, None),
      if status == Running then Some(tc.url) else None)
  }

  /** `updateTestStatus` on an existing state. */
  function UpdatedState(st: ExecState, status: TestStatus, error: Option<string>, now: int): (r: ExecState)
  {
    var s1 := st.(status := status);
    if status == Running then
      s1.(startTime := Some(now), url := if NoUrl(st.url) then Some(st.testCase.url) else st.url)
    else if status == Passed || status == Failed then
      s1.(endTime := Some(now), error := RecordedError(status, error, st.error))
    else
      s1
  }

  /** What each transition changes in an existing state, and what it leaves alone. */
  lemma UpdatedStateFields(st: ExecState, status: TestStatus, error: Option<string>, now: int)
    ensures var r := UpdatedState(st, status, error, now);
      && r.status == status
      && r.testCase == st.testCase && r.displayName == st.displayName && r.renderer == st.renderer
      && (status == Running ==>
            r.startTime == Some(now) && r.endTime == st.endTime && r.error == st.error
            && r.url == (if NoUrl(st.url) then Some(st.testCase.url) else st.url))
      && (status == Passed || status == Failed ==>
            r.endTime == Some(now) && r.startTime == st.startTime && r.url == st.url
            && r.error == (if status == Failed && error.Some? then error else st.error))
      && (status == Pending ==> r == st.(status := Pending))
  {
  }

  /** A URL, once set to a non-empty string, survives every transition. */
  lemma UrlIsKept(st: ExecState, status: TestStatus, error: Option<string>, now: int)
    requires !NoUrl(st.url)
    ensures UpdatedState(st, status, error, now).url == st.url
  {
  }

  /** Repeating a transition at the same instant changes nothing more. */
  lemma UpdateIsIdempotent(st: ExecState, status: TestStatus, error: Option<string>, now: int)
    ensures var once := UpdatedState(st, status, error, now);
      UpdatedState(once, status, error, now) == once
  {
  }

  /**
   * Starting a test and then finishing it records both instants, keeps the
   * running URL, and records an error only for a failure that has one.
   */
  lemma RunThenFinish(st: ExecState, fin: TestStatus, error: Option<string>, t1: int, t2: int)
    requires fin == Passed || fin == Failed
    ensures var r := UpdatedState(UpdatedState(st, Running, None, t1), fin, error, t2);
      && r.startTime == Some(t1) && r.endTime == Some(t2) && r.status == fin
      && r.url.Some? && (NoUrl(st.url) ==> r.url == Some(st.testCase.url))
      && (fin == Passed ==> r.error == st.error)
  {
  }

  /**
   * A created state is the pending state of the same test, shown under the
   * test's id, updated to the new status, except that it records no end time:
   * a test first seen as passed or failed never shows a duration.
   */
  lemma CreatedIsUpdatedPending(tc: TestCase, status: TestStatus, error: Option<string>, now: int)
    ensures CreatedState(tc, status, error, now) == UpdatedState(PendingState(tc, tc.id), status, error, now).(endTime := None)
    ensures status == Running || status == Pending ==>
      CreatedState(tc, status, error, now) == UpdatedState(PendingState(tc, tc.id), status, error, now)
    ensures status == Passed || status == Failed ==>
      CreatedState(tc, status, error, now).endTime.None? && UpdatedState(PendingState(tc, tc.id), status, error, now).endTime == Some(now)
  {
  }

  // ---------------------------------------------------------------------
  // The registry: files in key order, each with its ungrouped tests and its
  // named groups in key order.

  datatype FileTests = FileTests(ungrouped: seq<TestCase>, groups: OMap<string, seq<TestCase>>)

  type Registry = OMap<string, FileTests>

  ghost predicate WellFormed(reg: Registry)
  {
    reg.Valid() && forall f :: f in reg.vals ==> reg.vals[f].groups.Valid()
  }

  /** The tests of the groups `gks`, group by group. */
  function GroupTests(gks: seq<string>, groups: map<string, seq<TestCase>>): seq<TestCase>
  {
    if |gks| == 0 then [] else (if gks[0] in groups then groups[gks[0]] else []) + GroupTests(gks[1..], groups)
  }

  /** A file's tests in visiting order: the ungrouped ones, then each group's. */
  function FileList(ft: FileTests): seq<TestCase>
  {
    ft.ungrouped + GroupTests(ft.groups.keys, ft.groups.vals)
  }

  /** The tests of the files `fks`, file by file. */
  function FilesTests(fks: seq<string>, files: map<string, FileTests>): seq<TestCase>
  {
    if |fks| == 0 then [] else (if fks[0] in files then FileList(files[fks[0]]) else []) + FilesTests(fks[1..], files)
  }

  /** Every registered test, in the order the viewer walks them. */
  function AllTests(reg: Registry): seq<TestCase>
  {
    FilesTests(reg.keys, reg.vals)
  }

  lemma GroupTestsStep(gks: seq<string>, i: nat, groups: map<string, seq<TestCase>>)
    requires i < |gks| && gks[i] in groups
    ensures GroupTests(gks[i..], groups) == groups[gks[i]] + GroupTests(gks[i + 1..], groups)
  {
    assert gks[i..][0] == gks[i] && gks[i..][1..] == gks[i + 1..];
  }

  lemma FilesTestsStep(fks: seq<string>, i: nat, files: map<string, FileTests>)
    requires i < |fks| && fks[i] in files
    ensures FilesTests(fks[i..], files) == FileList(files[fks[i]]) + FilesTests(fks[i + 1..], files)
  {
    assert fks[i..][0] == fks[i] && fks[i..][1..] == fks[i + 1..];
  }

  /** The first test with the given id. */
  function FirstWithId(ts: seq<TestCase>, id: string): (r: Option<TestCase>)
    ensures r.None? <==> forall i :: 0 <= i < |ts| ==> ts[i].id != id
    ensures r.Some? ==> r.value.id == id
  {
    if |ts| == 0 then None
    else if ts[0].id == id then Some(ts[0])
    else FirstWithId(ts[1..], id)
  }

  /** A found test is the earliest test with that id. */
  lemma {:induction false} FirstWithIdIsFirst(ts: seq<TestCase>, id: string)
    requires FirstWithId(ts, id).Some?
    ensures exists i :: 0 <= i < |ts| && ts[i] == FirstWithId(ts, id).value && forall j :: 0 <= j < i ==> ts[j].id != id
  {
    if ts[0].id != id {
      FirstWithIdIsFirst(ts[1..], id);
      var i :| 0 <= i < |ts[1..]| && ts[1..][i] == FirstWithId(ts, id).value && forall j :: 0 <= j < i ==> ts[1..][j].id != id;
      assert ts[i + 1] == ts[1..][i];
      assert forall j :: 1 <= j < i + 1 ==> ts[j] == ts[1..][j - 1];
    } else {
      assert ts[0] == FirstWithId(ts, id).value;
    }
  }

  /** Searching `a + b` finds the first match of `a`, or else the first of `b`. */
  lemma {:induction false} FirstOfConcat(a: seq<TestCase>, b: seq<TestCase>, id: string)
    ensures FirstWithId(a + b, id) == if FirstWithId(a, id).Some? then FirstWithId(a, id) else FirstWithId(b, id)
  {
    if |a| > 0 {
      assert (a + b)[0] == a[0];
      assert (a + b)[1..] == a[1..] + b;
      FirstOfConcat(a[1..], b, id);
    } else {
      assert a + b == b;
    }
  }

  /** A suffix starting at index `k` either matches at `k` or is searched from `k + 1`. */
  lemma FirstStep(ts: seq<TestCase>, k: nat, id: string)
    requires k < |ts|
    ensures ts[k].id == id ==> FirstWithId(ts[k..], id) == Some(ts[k])
    ensures ts[k].id != id ==> FirstWithId(ts[k..], id) == FirstWithId(ts[k + 1..], id)
  {
    assert ts[k..][0] == ts[k];
    assert ts[k..][1..] == ts[k + 1..];
  }

  // ---------------------------------------------------------------------
  // Seeding the states.

  /** One element of `initializeTestStatesWithRenderIds`' argument. */
  datatype RenderEntry = RenderEntry(renderId: string, testCase: TestCase, originalId: string)

  /** Sets a pending state for each entry in turn; a later entry for the same render id overwrites. */
  function Seed(m: OMap<string, ExecState>, es: seq<RenderEntry>): (r: OMap<string, ExecState>)
    requires m.Valid()
    ensures r.Valid()
    decreases |es|
  {
    if |es| == 0 then m else Seed(m.Set(es[0].renderId, PendingState(es[0].testCase, es[0].originalId)), es[1..])
  }

  /** Some entry has render id `k`. */
  predicate HasEntry(es: seq<RenderEntry>, k: string)
  {
    exists i :: 0 <= i < |es| && es[i].renderId == k
  }

  /** Seeding holds exactly the keys it started with and the entries' render ids. */
  lemma {:induction false} SeedDomain(m: OMap<string, ExecState>, es: seq<RenderEntry>)
    requires m.Valid()
    ensures forall k :: k in Seed(m, es).vals <==> k in m.vals || HasEntry(es, k)
    decreases |es|
  {
    if |es| > 0 {
      var m1 := m.Set(es[0].renderId, PendingState(es[0].testCase, es[0].originalId));
      SeedDomain(m1, es[1..]);
      forall k ensures HasEntry(es, k) <==> k == es[0].renderId || HasEntry(es[1..], k) {
        if exists i :: 0 <= i < |es| && es[i].renderId == k {
          var i :| 0 <= i < |es| && es[i].renderId == k;
          if i > 0 { assert es[1..][i - 1] == es[i]; }
        }
        if exists i :: 0 <= i < |es[1..]| && es[1..][i].renderId == k {
          var i :| 0 <= i < |es[1..]| && es[1..][i].renderId == k;
          assert es[i + 1] == es[1..][i];
        }
      }
    }
  }

  /** A key no entry names keeps its value. */
  lemma {:induction false} SeedUntouched(m: OMap<string, ExecState>, es: seq<RenderEntry>, k: string)
    requires m.Valid() && k in m.vals
    requires forall i :: 0 <= i < |es| ==> es[i].renderId != k
    ensures k in Seed(m, es).vals && Seed(m, es).vals[k] == m.vals[k]
    decreases |es|
  {
    if |es| > 0 {
      var m1 := m.Set(es[0].renderId, PendingState(es[0].testCase, es[0].originalId));
      forall i | 0 <= i < |es[1..]| ensures es[1..][i].renderId != k { assert es[1..][i] == es[i + 1]; }
      SeedUntouched(m1, es[1..], k);
    }
  }

  /** The state of a render id is the pending state of its last entry. */
  lemma {:induction false} SeedLastWins(m: OMap<string, ExecState>, es: seq<RenderEntry>, i: nat)
    requires m.Valid() && i < |es|
    requires forall j :: i < j < |es| ==> es[j].renderId != es[i].renderId
    ensures es[i].renderId in Seed(m, es).vals
    ensures Seed(m, es).vals[es[i].renderId] == PendingState(es[i].testCase, es[i].originalId)
    decreases |es|
  {
    var m1 := m.Set(es[0].renderId, PendingState(es[0].testCase, es[0].originalId));
    if i == 0 {
      forall j | 0 <= j < |es[1..]| ensures es[1..][j].renderId != es[0].renderId { assert es[1..][j] == es[j + 1]; }
      SeedUntouched(m1, es[1..], es[0].renderId);
    } else {
      forall j | i - 1 < j < |es[1..]| ensures es[1..][j].renderId != es[1..][i - 1].renderId { assert es[1..][j] == es[j + 1]; }
      SeedLastWins(m1, es[1..], i - 1);
    }
  }

  /** Seeding from an empty map: exactly the given render ids, each pending under its entry's original id and test. */
  lemma SeededStates(es: seq<RenderEntry>)
    ensures forall k :: k in Seed(Empty(), es).vals <==> HasEntry(es, k)
    ensures forall k :: k in Seed(Empty(), es).vals ==> Seed(Empty(), es).vals[k].status == Pending
    ensures forall i :: 0 <= i < |es| && (forall j :: i < j < |es| ==> es[j].renderId != es[i].renderId) ==>
      es[i].renderId in Seed(Empty(), es).vals && Seed(Empty(), es).vals[es[i].renderId] == PendingState(es[i].testCase, es[i].originalId)
  {
    var r := Seed(Empty(), es);
    SeedDomain(Empty(), es);
    forall i | 0 <= i < |es| && (forall j :: i < j < |es| ==> es[j].renderId != es[i].renderId)
      ensures r.vals[es[i].renderId] == PendingState(es[i].testCase, es[i].originalId)
    {
      SeedLastWins(Empty(), es, i);
    }
    forall k | k in r.vals ensures r.vals[k].status == Pending {
      var i := LastIndexOf(es, k);
      SeedLastWins(Empty(), es, i);
    }
  }

  /** The last entry for render id `k`. */
  lemma LastIndexOf(es: seq<RenderEntry>, k: string) returns (i: nat)
    requires HasEntry(es, k)
    ensures i < |es| && es[i].renderId == k
    ensures forall j :: i < j < |es| ==> es[j].renderId != k
  {
    var n := |es| - 1;
    while es[n].renderId != k
      invariant 0 <= n < |es|
      invariant exists i :: 0 <= i <= n && es[i].renderId == k
      invariant forall j :: n < j < |es| ==> es[j].renderId != k
      decreases n
    {
      n := n - 1;
    }
    i := n;
  }

  /** `initializeTestStates` keys every registered test by its own id and shows it under that id. */
  function TestEntries(ts: seq<TestCase>): (es: seq<RenderEntry>)
    ensures |es| == |ts|
    ensures forall i :: 0 <= i < |ts| ==> es[i] == RenderEntry(ts[i].id, ts[i], ts[i].id)
  {
    seq(|ts|, i requires 0 <= i < |ts| => RenderEntry(ts[i].id, ts[i], ts[i].id))
  }

  lemma TestEntriesStep(ts: seq<TestCase>, k: nat)
    requires k < |ts|
    ensures TestEntries(ts[k..]) == [RenderEntry(ts[k].id, ts[k], ts[k].id)] + TestEntries(ts[k + 1..])
  {
  }

  /** Seeding from a concatenation seeds from the first part, then from the second. */
  lemma {:induction false} SeedConcat(m: OMap<string, ExecState>, a: seq<TestCase>, b: seq<TestCase>)
    requires m.Valid()
    ensures Seed(m, TestEntries(a + b)) == Seed(Seed(m, TestEntries(a)), TestEntries(b))
    decreases |a|
  {
    if |a| > 0 {
      var t := a[0];
      var m1 := m.Set(t.id, PendingState(t, t.id));
      assert TestEntries(a + b)[1..] == TestEntries(a[1..] + b);
      assert TestEntries(a)[1..] == TestEntries(a[1..]);
      assert a[1..] + b == (a + b)[1..];
      SeedConcat(m1, a[1..], b);
    } else {
      assert a + b == b;
    }
  }

  // ---------------------------------------------------------------------
  // Counting (the loop at the top of `renderTestTree`).

  datatype Counts = Counts(running: nat, passed: nat, failed: nat, pending: nat)

  function Bump(c: Counts, s: TestStatus): (r: Counts)
  {
    match s
    case Running => c.(running := c.running + 1)
    case Passed => c.(passed := c.passed + 1)
    case Failed => c.(failed := c.failed + 1)
    case Pending => c.(pending := c.pending + 1)
  }

  predicate KeysIn(ks: seq<string>, vals: map<string, ExecState>)
  {
    forall i :: 0 <= i < |ks| ==> ks[i] in vals
  }

  /** The counts of the states of `ks`, by status. */
  function Tally(ks: seq<string>, vals: map<string, ExecState>): Counts
    requires KeysIn(ks, vals)
  {
    if |ks| == 0 then Counts(0, 0, 0, 0) else Bump(Tally(ks[..|ks| - 1], vals), vals[ks[|ks| - 1]].status)
  }

  /** The keys of `ks` whose state is running, in key order. */
  function RunningIds(ks: seq<string>, vals: map<string, ExecState>): seq<string>
    requires KeysIn(ks, vals)
  {
    if |ks| == 0 then []
    else RunningIds(ks[..|ks| - 1], vals) + (if vals[ks[|ks| - 1]].status == Running then [ks[|ks| - 1]] else [])
  }

  /** The four counts together are the number of keys. */
  lemma {:induction false} TallyTotal(ks: seq<string>, vals: map<string, ExecState>)
    requires KeysIn(ks, vals)
    ensures var c := Tally(ks, vals); c.running + c.passed + c.failed + c.pending == |ks|
  {
    if |ks| > 0 {
      TallyTotal(ks[..|ks| - 1], vals);
    }
  }

  /** The running ids are exactly the keys whose state is running, one per running state. */
  lemma {:induction false} RunningIdsExact(ks: seq<string>, vals: map<string, ExecState>)
    requires KeysIn(ks, vals)
    ensures forall k :: k in RunningIds(ks, vals) <==> k in ks && vals[k].status == Running
    ensures |RunningIds(ks, vals)| == Tally(ks, vals).running
  {
    if |ks| > 0 {
      var init := ks[..|ks| - 1];
      RunningIdsExact(init, vals);
      assert ks == init + [ks[|ks| - 1]];
    }
  }

  /** For a whole map: the counts add up to `testStates.size`. */
  lemma CountsCoverStates(m: OMap<string, ExecState>)
    requires m.Valid()
    ensures KeysIn(m.keys, m.vals)
    ensures var c := Tally(m.keys, m.vals); c.running + c.passed + c.failed + c.pending == |m.vals|
  {
    SizeOfValid(m);
    TallyTotal(m.keys, m.vals);
  }

  // ---------------------------------------------------------------------
  // The frame heading and the summary printed by `stopRendering`.

  function HeaderLine(total: nat): string
  {
    "=== Running " + NatToString(total) + " Tests with Magnitude ==="
  }

  function StatusLine(c: Counts): string
  {
    "✓ " + NatToString(c.passed) + " passed ✗ " + NatToString(c.failed) + " failed ◌ "
      + NatToString(c.running) + " running ◯ " + NatToString(c.pending) + " pending"
  }

  /** The first three lines of every frame the viewer prints. */
  function TreeHeading(m: OMap<string, ExecState>): seq<string>
    requires KeysIn(m.keys, m.vals)
  {
    [HeaderLine(|m.vals|), StatusLine(Tally(m.keys, m.vals)), ""]
  }

  /** The failed states, as (id, error message) pairs in key order. */
  function FailedEntries(ks: seq<string>, vals: map<string, ExecState>): seq<(string, Option<string>)>
    requires KeysIn(ks, vals)
  {
    if |ks| == 0 then []
    else
      var k := ks[|ks| - 1];
      FailedEntries(ks[..|ks| - 1], vals) + (if vals[k].status == Failed then [(k, vals[k].error)] else [])
  }

  const FailMark: string := "  ✗ "
  const ErrorIndent: string := "    "

  function FailLine(id: string): string { FailMark + id }

  function ErrorLine(message: string): string { ErrorIndent + message }

  function FailedHeading(n: nat): string { "\n" + NatToString(n) + " tests failed:" }

  function AllPassedLine(n: nat): string { "\nAll " + NatToString(n) + " tests passed!" }

  /** A failed test's id, then its error message when it has one. */
  function EntryLines(e: (string, Option<string>)): seq<string>
  {
    [FailLine(e.0)] + (if e.1.Some? then [ErrorLine(e.1.value)] else [])
  }

  function FailureLines(es: seq<(string, Option<string>)>): seq<string>
  {
    if |es| == 0 then [] else FailureLines(es[..|es| - 1]) + EntryLines(es[|es| - 1])
  }

  /** The lines `stopRendering` logs after the final frame. */
  function SummaryLines(m: OMap<string, ExecState>): seq<string>
    requires KeysIn(m.keys, m.vals)
  {
    var failed := FailedEntries(m.keys, m.vals);
    if |failed| > 0 then [FailedHeading(|failed|)] + FailureLines(failed)
    else
      var passed := Tally(m.keys, m.vals).passed;
      if passed > 0 then [AllPassedLine(passed)] else []
  }

  /** The failed entries are exactly the failed keys, each with its state's error, one per failed state. */
  lemma {:induction false} FailedEntriesExact(ks: seq<string>, vals: map<string, ExecState>)
    requires KeysIn(ks, vals)
    ensures |FailedEntries(ks, vals)| == Tally(ks, vals).failed
    ensures forall k :: (exists i :: 0 <= i < |FailedEntries(ks, vals)| && FailedEntries(ks, vals)[i].0 == k) <==> k in ks && vals[k].status == Failed
    ensures forall i :: 0 <= i < |FailedEntries(ks, vals)| ==>
      FailedEntries(ks, vals)[i].0 in vals && FailedEntries(ks, vals)[i].1 == vals[FailedEntries(ks, vals)[i].0].error
  {
    if |ks| > 0 {
      var init := ks[..|ks| - 1];
      var k := ks[|ks| - 1];
      FailedEntriesExact(init, vals);
      var f0 := FailedEntries(init, vals);
      var f := FailedEntries(ks, vals);
      assert ks == init + [k];
      forall x ensures (exists i :: 0 <= i < |f| && f[i].0 == x) <==> x in ks && vals[x].status == Failed {
        if exists i :: 0 <= i < |f| && f[i].0 == x {
          var i :| 0 <= i < |f| && f[i].0 == x;
          if i < |f0| { assert f[i] == f0[i]; }
        }
        if x in ks && vals[x].status == Failed {
          if x in init {
            var i :| 0 <= i < |f0| && f0[i].0 == x;
            assert f[i] == f0[i];
          } else {
            assert f[|f0|].0 == x;
          }
        }
      }
    }
  }

  lemma FailLineInjective(x: string, y: string)
    requires FailLine(x) == FailLine(y)
    ensures x == y
  {
    assert x == FailLine(x)[|FailMark|..];
    assert y == FailLine(y)[|FailMark|..];
  }

  /** An id line is never an error line: they differ in their third character. */
  lemma FailLineIsNotErrorLine(x: string, message: string)
    ensures FailLine(x) != ErrorLine(message)
  {
    assert FailLine(x)[2] == '✗';
    assert ErrorLine(message)[2] == ' ';
  }

  /** The id lines of the failure lines name exactly the entries' ids. */
  lemma {:induction false} FailureLinesNames(es: seq<(string, Option<string>)>)
    ensures forall x :: FailLine(x) in FailureLines(es) <==> exists i :: 0 <= i < |es| && es[i].0 == x
  {
    if |es| > 0 {
      var init := es[..|es| - 1];
      var e := es[|es| - 1];
      FailureLinesNames(init);
      forall x ensures FailLine(x) in FailureLines(es) <==> exists i :: 0 <= i < |es| && es[i].0 == x {
        assert FailureLines(es) == FailureLines(init) + EntryLines(e);
        if e.1.Some? { FailLineIsNotErrorLine(x, e.1.value); }
        if FailLine(x) == FailLine(e.0) { FailLineInjective(x, e.0); }
        if exists i :: 0 <= i < |es| && es[i].0 == x {
          var i :| 0 <= i < |es| && es[i].0 == x;
          if i < |init| { assert init[i] == es[i]; }
        }
        if exists i :: 0 <= i < |init| && init[i].0 == x {
          var i :| 0 <= i < |init| && init[i].0 == x;
          assert es[i] == init[i];
        }
      }
    }
  }

  /** The summary names a test on an id line exactly when that test failed. */
  lemma SummaryNamesFailed(m: OMap<string, ExecState>)
    requires m.Valid()
    ensures KeysIn(m.keys, m.vals)
    ensures forall x :: FailLine(x) in SummaryLines(m) <==> x in m.vals && m.vals[x].status == Failed
  {
    var f := FailedEntries(m.keys, m.vals);
    FailedEntriesExact(m.keys, m.vals);
    FailureLinesNames(f);
    forall x ensures FailLine(x) in SummaryLines(m) <==> x in m.vals && m.vals[x].status == Failed {
      assert FailLine(x)[0] == ' ';
      if |f| > 0 {
        assert FailedHeading(|f|)[0] == '\n';
        assert SummaryLines(m) == [FailedHeading(|f|)] + FailureLines(f);
      } else {
        assert AllPassedLine(Tally(m.keys, m.vals).passed)[0] == '\n';
      }
    }
  }

  /** With failures, the summary starts with their number and then lists them in key order. */
  lemma SummaryWithFailures(m: OMap<string, ExecState>)
    requires m.Valid()
    ensures KeysIn(m.keys, m.vals)
    ensures Tally(m.keys, m.vals).failed > 0 ==>
      SummaryLines(m) == [FailedHeading(Tally(m.keys, m.vals).failed)] + FailureLines(FailedEntries(m.keys, m.vals))
  {
    FailedEntriesExact(m.keys, m.vals);
  }

  /** `s` starts like the "All N tests passed!" line. */
  predicate IsAllPassedLine(s: string)
  {
    |s| >= 2 && s[0] == '\n' && s[1] == 'A'
  }

  /** The "All N tests passed!" line is printed exactly when nothing failed and at least one test passed, and it is then the only line. */
  lemma SummaryAllPassed(m: OMap<string, ExecState>)
    requires m.Valid()
    ensures KeysIn(m.keys, m.vals)
    ensures var c := Tally(m.keys, m.vals);
      (exists i :: 0 <= i < |SummaryLines(m)| && IsAllPassedLine(SummaryLines(m)[i])) <==> c.failed == 0 && c.passed >= 1
    ensures var c := Tally(m.keys, m.vals);
      c.failed == 0 && c.passed >= 1 ==> SummaryLines(m) == [AllPassedLine(c.passed)]
    ensures var c := Tally(m.keys, m.vals);
      SummaryLines(m) == [] <==> c.failed == 0 && c.passed == 0
  {
    var f := FailedEntries(m.keys, m.vals);
    FailedEntriesExact(m.keys, m.vals);
    var c := Tally(m.keys, m.vals);
    if |f| > 0 {
      var s := SummaryLines(m);
      assert s == [FailedHeading(|f|)] + FailureLines(f);
      NotAllPassedInFailures(f);
      var h := FailedHeading(|f|);
      assert h[1] == NatToString(|f|)[0];
      assert !IsAllPassedLine(h);
      forall i | 0 <= i < |s| ensures !IsAllPassedLine(s[i]) {
        if i > 0 { assert s[i] == FailureLines(f)[i - 1]; }
      }
    } else if c.passed > 0 {
      assert AllPassedLine(c.passed)[1] == 'A';
      assert IsAllPassedLine(SummaryLines(m)[0]);
    }
  }

  lemma {:induction false} NotAllPassedInFailures(es: seq<(string, Option<string>)>)
    ensures forall i :: 0 <= i < |FailureLines(es)| ==> !IsAllPassedLine(FailureLines(es)[i])
  {
    if |es| > 0 {
      var init := es[..|es| - 1];
      var e := es[|es| - 1];
      NotAllPassedInFailures(init);
      var a := FailureLines(init);
      var b := EntryLines(e);
      assert b[0][0] == ' ';
      assert e.1.Some? ==> b[1][0] == ' ';
      forall i | 0 <= i < |a + b| ensures !IsAllPassedLine((a + b)[i]) {
        if i < |a| { assert (a + b)[i] == a[i]; } else { assert (a + b)[i] == b[i - |a|]; }
      }
    }
  }

  // ---------------------------------------------------------------------
  // Status glyphs.

  const PendingGlyph: string := "◯"
  const PassedGlyph: string := "✓"
  const FailedGlyph: string := "✗"

  /** `getStatusSymbol`: a running test shows the current spinner glyph. */
  function StatusSymbol(s: TestStatus, frame: nat): string
    requires frame < Renderer.SpinnerCount
  {
    match s
    case Pending => PendingGlyph
    case Running => Renderer.SpinnerFrames[frame]
    case Passed => PassedGlyph
    case Failed => FailedGlyph
  }

  /** Reads a glyph back as the status it shows. */
  function StatusOfGlyph(g: string): Option<TestStatus>
  {
    if g == PendingGlyph then Some(Pending)
    else if g == PassedGlyph then Some(Passed)
    else if g == FailedGlyph then Some(Failed)
    else if g in Renderer.SpinnerFrames then Some(Running)
    else None
  }

  /** Each glyph is one character and identifies the status, whatever the spinner frame. */
  lemma StatusSymbolRoundTrip(s: TestStatus, frame: nat)
    requires frame < Renderer.SpinnerCount
    ensures |StatusSymbol(s, frame)| == 1
    ensures StatusOfGlyph(StatusSymbol(s, frame)) == Some(s)
  {
    if s == Running {
      var g := Renderer.SpinnerFrames[frame];
      assert g[0] != PendingGlyph[0] && g[0] != PassedGlyph[0] && g[0] != FailedGlyph[0];
    }
  }

  // ---------------------------------------------------------------------
  // `formatElapsedTime`.

  /** JavaScript's `a % b` for `b > 0`: the remainder takes the sign of `a`. */
  function JsRem(a: int, b: int): (r: int)
    requires b > 0
    ensures a >= 0 ==> r == a % b
  {
    if a >= 0 then a % b else -((-a) % b)
  }

  function Pad2(n: int): string
  {
    PadStart2(IntToString(n))
  }

  /** The leading "hh:" of a clock, present only from one hour on. */
  function HoursPart(h: int): string
  {
    if h > 0 then Pad2(h) + ":" else ""
  }

  /** The "mm:ss" of a clock, from whole minutes and whole seconds. */
  function MinutesSecondsPart(m: int, s: int): string
  {
    Pad2(JsRem(m, 60)) + ":" + Pad2(JsRem(s, 60))
  }

  /**
   * `formatElapsedTime(ms)`: `Math.floor` is Dafny's division by a positive
   * divisor; `!ms` holds only for 0 among integers.
   */
  function FormatElapsed(ms: int): string
  {
    if ms == 0 then "00:00"
    else HoursPart(ms / 1000 / 60 / 60) + MinutesSecondsPart(ms / 1000 / 60, ms / 1000)
  }

  /** "00:00" is the clock of no time at all. */
  lemma ZeroClock()
    ensures "00:00" == HoursPart(0) + MinutesSecondsPart(0, 0)
  {
    assert Pad2(0) == "00";
    assert HoursPart(0) == "";
  }

  /** Every non-negative duration, 0 included, prints as its hours part and its minutes-and-seconds part. */
  lemma ClockParts(ms: nat)
    ensures FormatElapsed(ms) == HoursPart(ms / 1000 / 60 / 60) + MinutesSecondsPart(ms / 1000 / 60, ms / 1000)
  {
    if ms == 0 {
      ZeroClock();
    }
  }

  /** For a non-negative duration: hours only when there is a whole hour, then minutes and seconds modulo 60. */
  lemma FormatElapsedNat(ms: nat)
    ensures var s := ms / 1000; var m := s / 60; var h := m / 60;
      FormatElapsed(ms) ==
        (if h > 0 then PadStart2(NatToString(h)) + ":" else "")
        + (PadStart2(NatToString(m % 60)) + ":" + PadStart2(NatToString(s % 60)))
  {
    if ms == 0 {
      ZeroClock();
    }
  }

  /** The value of "mm:ss" or "hh:mm:ss" in seconds. */
  function ClockSeconds(fs: seq<string>): nat
    requires 2 <= |fs| <= 3
    requires forall i :: 0 <= i < |fs| ==> AllDigits(fs[i])
  {
    if |fs| == 2 then 60 * DigitsValue(fs[0]) + DigitsValue(fs[1])
    else 3600 * DigitsValue(fs[0]) + 60 * DigitsValue(fs[1]) + DigitsValue(fs[2])
  }

  /**
   * `fs` reads back as a clock of `total` seconds: two or three digit
   * fields (three exactly when `hours`), the last two of them two digits
   * below 60.
   */
  ghost predicate ReadsBack(fs: seq<string>, hours: bool, total: nat)
  {
    && |fs| == (if hours then 3 else 2)
    && (forall i :: 0 <= i < |fs| ==> AllDigits(fs[i]))
    && |fs[|fs| - 2]| == 2 && DigitsValue(fs[|fs| - 2]) < 60
    && |fs[|fs| - 1]| == 2 && DigitsValue(fs[|fs| - 1]) < 60
    && ClockSeconds(fs) == total
  }

  /**
   * Reading the clock back: the hours field is present exactly when at least
   * an hour elapsed, and the fields give back the whole seconds.
   */
  lemma ElapsedRoundTrip(ms: nat)
    ensures ReadsBack(Fields(FormatElapsed(ms)), ms / 1000 / 60 / 60 > 0, ms / 1000)
  {
    var s := ms / 1000;
    var m := s / 60;
    var h := m / 60;
    ClockParts(ms);
    ClockArithmetic(ms);
    if h > 0 {
      ElapsedFieldsWithHours(h, m, s);
    } else {
      ElapsedFieldsWithoutHours(m, s);
    }
  }

  lemma ElapsedFieldsWithHours(h: nat, m: nat, s: nat)
    requires h > 0
    ensures ReadsBack(Fields(HoursPart(h) + MinutesSecondsPart(m, s)), true, 3600 * h + 60 * (m % 60) + s % 60)
  {
    var b, c := Pad2(m % 60), Pad2(s % 60);
    PadDigits(h);
    PadDigits(m % 60);
    PadDigits(s % 60);
    assert MinutesSecondsPart(m, s) == b + ":" + c;
    ClockOfThree(Pad2(h), b + ":" + c, b, c);
  }

  lemma ElapsedFieldsWithoutHours(m: nat, s: nat)
    ensures ReadsBack(Fields(HoursPart(0) + MinutesSecondsPart(m, s)), false, 60 * (m % 60) + s % 60)
  {
    var b, c := Pad2(m % 60), Pad2(s % 60);
    PadDigits(m % 60);
    PadDigits(s % 60);
    assert HoursPart(0) + MinutesSecondsPart(m, s) == b + ":" + c;
    ClockOfTwo(b, c);
  }

  /** A two-digit field below 60. */
  ghost predicate SixtyField(f: string)
  {
    AllDigits(f) && NoColon(f) && |f| == 2 && DigitsValue(f) < 60
  }

  lemma ClockOfTwo(b: string, c: string)
    requires SixtyField(b) && SixtyField(c)
    ensures ReadsBack(Fields(b + ":" + c), false, 60 * DigitsValue(b) + DigitsValue(c))
  {
    FieldsOfJoin(b, c);
    FieldsOfNoColon(c);
    assert Fields(b + ":" + c) == [b, c];
  }

  lemma ClockOfThree(a: string, t: string, b: string, c: string)
    requires AllDigits(a) && NoColon(a) && SixtyField(b) && SixtyField(c) && t == b + ":" + c
    ensures ReadsBack(Fields(a + ":" + t), true, 3600 * DigitsValue(a) + 60 * DigitsValue(b) + DigitsValue(c))
  {
    FieldsOfJoin(a, t);
    FieldsOfJoin(b, c);
    FieldsOfNoColon(c);
    assert Fields(a + ":" + t) == [a, b, c];
  }

  /** Hours, minutes modulo 60 and seconds modulo 60 add back up to the whole seconds. */
  lemma ClockArithmetic(ms: nat)
    ensures var s := ms / 1000; var m := s / 60; var h := m / 60;
      && (h > 0 ==> 3600 * h + 60 * (m % 60) + s % 60 == s)
      && (h == 0 ==> m < 60 && 60 * (m % 60) + s % 60 == s)
  {
    var s := ms / 1000;
    var m := s / 60;
    var h := m / 60;
    assert s == 60 * m + s % 60;
    assert m == 60 * h + m % 60;
  }

  /** A padded natural is a digit string without colons that reads back as the number, two long below 100. */
  lemma PadDigits(n: nat)
    ensures AllDigits(Pad2(n)) && NoColon(Pad2(n)) && DigitsValue(Pad2(n)) == n
    ensures n < 100 ==> |Pad2(n)| == 2
  {
    PadStart2Value(NatToString(n));
    NatToStringRoundTrip(n);
    var p := Pad2(n);
    assert forall i :: 0 <= i < |p| ==> p[i] != ':' by {
      forall i | 0 <= i < |p| ensures p[i] != ':' { assert IsDigit(p[i]); }
    }
    if n >= 10 && n < 100 {
      assert NatToString(n) == NatToString(n / 10) + [DigitChar(n % 10)];
    }
  }
}
