# magnitude-ts core, modelled in Dafny

This project models the client-side core of magnitude-ts. That library builds
multi-step acceptance tests, submits them to a remote Magnitude execution
service, polls the run until it is done, and draws live terminal progress for
one test or for many.

The model covers these parts of the source:

- **`isLocalUrl` / `isLocalIp`** (module `LocalAddress`). The seven anchored
  IPv4/IPv6 range patterns are written as predicates. Lemmas prove which
  addresses each pattern accepts. `LocalAddressProperties` proves the
  classifier's properties: 172.16-31 and the 169.254 link-local octets as
  "if and only if" statements, the missing `$` on the IPv4 patterns, the
  anchored `::1$` branch, bracket stripping and the localhost names. It also
  proves the verdict the program gives on every example URL listed in the
  commented-out usage block, from the hostname the URL parser produces.
  For `http://[::ffff:127.0.0.1]` that hostname is `[::ffff:7f00:1]`,
  which the program calls not local.
- **The run snapshot queries** (module `DataWrappers`). Problems are gathered
  in document order; `hasProblems` and `hasPassed` are the others. The
  missing-steps and empty-steps error paths of the code are included.
- **The test builder** (module `TestCases`). `TestStep.check`, `data` and
  `secureData` are modelled, including the object spread with its key
  order. So is `toData`, which merges plain and secure entries by
  `Object.entries` order, and `TestCase.addStep` / `run`.
- **The run poller** (module `RunPoller`, `TestRunner` in the source).
  Start, run id, poll, status, reschedule, and resolve on the first done
  snapshot. The remote service is a script of responses given as a
  parameter.
- **The single-test renderer** (module `Renderer`, `TestRenderer` in the
  source). The spinner cycle, the progress bar, the active step, the last
  five actions, and the frame composed from a run.
- **The multi-test viewer** (module `Viewer`, class `TestViewer`, with the
  specification functions in `ViewerModel`). Seeding states from the
  registry, finding tests, status transitions, per-test renderers, runtime
  registration, the tree heading with its counts, the elapsed-time clock,
  and the final summary.
- **The client singleton** (module `Client`). `Magnitude.init`,
  `getInstance` and `getApiKey`, with the API key taken from the environment.

Shared modules:

- `Wrappers`: `Option` and `Result`.
- `Text`: digits, `padStart`, `repeat`, ASCII lowercasing, splitting on `:`.
- `OrderedMaps`: an insertion-ordered map standing for JavaScript `Map` and
  plain-object key order.
- `Types`: the record shapes of `src/types.ts`.

Where the source updates an object in place (the poller, the renderer, the
viewer, the client singleton), the model is a `class` whose methods carry
`modifies` clauses. Each such method is proved against a specification
function, and the properties are proved about those functions. Console
output and frames are modelled as sequences of uncoloured strings that the
methods append to. Timers are modelled as explicit `Tick` / `FirePollTimer`
methods. The clock is a `now` parameter.

Some behaviours of the code are easy to miss, and the model keeps them:

- `hasPassed` on a run whose step list is present but empty reads
  `steps[-1]` and throws, so the model returns an error. Only a missing
  step list passes.
- The poller never rejects its promise: `rejectRunningPromise` is stored
  but never called. A failed start or status request leaves the promise
  unsettled.
- The poller does no snapshot fingerprint diffing, sends no warning
  callbacks, has no fail-fast rejection and opens no tunnel. `updateRun`
  has an empty body, so the progress and problem callbacks are registered
  but never invoked.
- `src/testRunner.ts:7-91` repeats the snapshot wrapper classes of
  `src/dataWrappers.ts`, without `getRawData`. Both are modelled by the
  `DataWrappers` members. `getRawData`, `isDone` and the `Problem` getters
  are the fields of the datatypes.

## Model

| member | source | states |
|---|---|---|
| LocalAddress.IsLocalIp | src/util.ts:26-33 | `isLocalIp`; its meaning is stated by IsLocalIpCases, PatternIsLocal and the range lemmas below |
| LocalAddress.StripBrackets | src/util.ts:51 | `replace(/^\[\|\]$/g, '')`; BracketedHost states what it removes |
| LocalAddress.IsLocalUrl | src/util.ts:40-58 | `isLocalUrl` from the parsed hostname; LocalhostNames, UnparseableNotLocal, BracketedHost, PlainHost, NumericHost and the `*Url` lemmas state its meaning |
| LocalAddress.LeadingDigits | src/util.ts:6 | the length of the longest run of digits at the start of the text, as a greedy `\d{1,3}` scans it |
| LocalAddress.OctetDotIsRegex | src/util.ts:6 | `\d{1,3}\.` matches at the start exactly when one to three digits are followed by a dot, and the match consumes exactly them |
| LocalAddress.ThirdOctetDotIsRegex | src/util.ts:10 | the third-octet alternation followed by a dot matches exactly when some split allowed by `[1-9]\|1?\d\d\|2[0-4]\d\|25[0-4]` is followed by a dot |
| LocalAddress.GroupsIsRegex | src/util.ts:16-18 | the IPv6 tail `(::1$\|:[0-9a-f]{1,4}){1,7}` matches exactly when one to seven such groups do |
| LocalAddress.SomeTestExists | src/util.ts:31 | `LOCAL_IP_RANGES.some(...)` holds exactly when one of the patterns matches |
| LocalAddress.IsLocalIpCases | src/util.ts:4-33 | an address is local exactly when it is `::`, `::1` or `0.0.0.0`, or matches one of the seven range patterns |
| LocalAddress.PatternIsLocal | src/util.ts:26-33 | anything a single range pattern matches is local |
| LocalAddressProperties.OnlyPrivate172 | src/util.ts:12 | an address starting with `172.` is local exactly when the 172.16-31 pattern matches it |
| LocalAddressProperties.OnlyLinkLocal169 | src/util.ts:10 | an address starting with `169.254.` is local exactly when the link-local pattern matches it |
| LocalAddressProperties.Private172Iff | src/util.ts:11-12 | a dotted quad `172.a.x.y` is local exactly when `a` is two digits worth 16 to 31 |
| LocalAddressProperties.Private172BodyIff | src/util.ts:12 | the 172 pattern accepts `172.a.x.y` exactly when `a` is two digits worth 16 to 31 |
| LocalAddressProperties.SecondOctet172Value | src/util.ts:12 | `1[6-9]\|2\d\|3[0-1]` accepts two digits exactly when their value is 16 to 31 |
| LocalAddressProperties.LinkLocal169Iff | src/util.ts:9-10 | `169.254.t.y` is local exactly when the third octet matches the link-local alternation |
| LocalAddressProperties.LinkLocalOctetValue | src/util.ts:10 | without a leading zero the alternation accepts exactly 1 to 254; with a leading zero it accepts exactly two-digit octets like `01` |
| LocalAddressProperties.Ipv4TrailingTextIgnored | src/util.ts:6-14 | the IPv4 patterns have no `$`, so anything matched stays local whatever text follows |
| LocalAddressProperties.UncheckedOctetsExample | src/util.ts:6 | `10.999.0.1x` counts as local because octets are not range-checked |
| LocalAddressProperties.LinkLocal6Example | src/util.ts:18 | `fe80::1` is local |
| LocalAddressProperties.UniqueLocalExample | src/util.ts:16 | the fully written `fd00:0:0:0:0:0:0:1` is local |
| LocalAddressProperties.ExpandedLinkLocal6NotLocal | src/util.ts:18 | `fe80::1ff:fe23:4567:890a` is not local: after `fe80` the tail must start with `::1` at the end or `:` and a hex group |
| LocalAddressProperties.TextAfterLoopbackSuffixMatters | src/util.ts:16-18 | the `::1$` branch is anchored: `fe80::1` is local and `fe80::1ff` is not |
| LocalAddressProperties.NotLocalAfterDoubleColon | src/util.ts:16-18 | an `f…` address whose four-character prefix is followed by `::` other than a final `::1` is not local |
| LocalAddressProperties.LocalhostNames | src/util.ts:45-48 | a hostname that lowercases to `localhost` or ends in `.localhost` is local |
| LocalAddressProperties.UnparseableNotLocal | src/util.ts:54-57 | a URL the parser rejects is not local |
| LocalAddressProperties.BracketedHost | src/util.ts:50-53 | a bracketed hostname is local exactly when its lowercased contents are a local IP |
| LocalAddressProperties.PlainHost | src/util.ts:43-53 | a lowercase unbracketed hostname other than the localhost names is local exactly when it is a local IP |
| LocalAddressProperties.NumericHost | src/util.ts:43-53 | a hostname of digits and dots ending in a digit is local exactly when it is a local IP |
| LocalAddressProperties.Loopback127Ip | src/util.ts:7-8 | every dotted quad `127.a.b.c` with one-to-three-digit octets is local |
| LocalAddressProperties.Private10Ip | src/util.ts:5-6 | every dotted quad `10.a.b.c` is local |
| LocalAddressProperties.Private192Ip | src/util.ts:13-14 | every dotted quad `192.168.b.c` is local |
| LocalAddressProperties.MappedLoopbackIp | src/util.ts:8 | the IPv4-mapped form `::ffff:127.a.b.c` is local |
| LocalAddressProperties.Loopback127Url | src/util.ts:40-53 | a URL whose host is `127.a.b.c` is local |
| LocalAddressProperties.Private10Url | src/util.ts:40-53 | a URL whose host is `10.a.b.c` is local |
| LocalAddressProperties.Private192Url | src/util.ts:40-53 | a URL whose host is `192.168.b.c` is local |
| LocalAddressProperties.Private172Url | src/util.ts:40-53 | a URL whose host is `172.a.x.y` is local exactly when `a` is two digits worth 16 to 31 |
| LocalAddressProperties.LinkLocal169Url | src/util.ts:40-53 | a URL whose host is `169.254.t.y` is local exactly when `t` matches the link-local alternation |
| LocalAddressProperties.CommentExamplesLocal | src/util.ts:62-70 | the unbracketed example hosts listed as local (localhost names, loopback, 0.0.0.0, private and link-local) are classified local |
| LocalAddressProperties.CommentExamplesBracketed | src/util.ts:71-73 | of the bracketed example hosts as the URL parser gives them, `[::1]` is local, while `[::ffff:7f00:1]` (written `[::ffff:127.0.0.1]` in the URL) and `[fe80::1ff:fe23:4567:890a]` are not |
| LocalAddressProperties.MappedHexNotLocal | src/util.ts:4-33 | `::ffff:7f00:1`, the parser's spelling of the IPv4-mapped loopback, matches no pattern and no literal |
| LocalAddressProperties.MappedLoopbackExample | src/util.ts:8 | `isLocalIp` called directly on the text `::ffff:127.0.0.1` accepts it through the `::ffff:` prefix of the loopback pattern |
| LocalAddressProperties.CommentExamplesNotLocal | src/util.ts:74-76 | `example.com`, `192.169.1.1` and `172.32.0.1` are not local |
| LocalAddressProperties.Private172Example | src/util.ts:68-69 | for a two-digit second octet, a `172.` host is local exactly when that octet's value is 16 to 31 |
| LocalAddressProperties.NoRangePrefix | src/util.ts:26-33 | an address that begins like none of the patterns and is none of the literals is not local |
| Text.NatToString | src/testRunner/testViewer.ts:337 | `n.toString()` is a non-empty digit string without a leading zero |
| Text.NatToStringRoundTrip | src/testRunner/testViewer.ts:337 | reading the printed digits back gives the number |
| Text.PadStart2Value | src/testRunner/testViewer.ts:337 | `padStart(2, '0')` keeps a digit string a digit string of the same value |
| Text.Repeat | src/testRenderer.ts:149 | `c.repeat(n)` is `n` copies of `c` |
| Text.ToLowerAscii | src/util.ts:43 | `toLowerCase` maps each ASCII capital to its lowercase letter and keeps every other character, length unchanged |
| OrderedMaps.Set | src/testRunner/testViewer.ts:219 | `Map.set` keeps the map well formed, binds the key, keeps an existing key's position and appends a new key last |
| OrderedMaps.Delete | src/testRunner/testViewer.ts:265 | `Map.delete` keeps the map well formed, unbinds the key and keeps the other keys in order |
| OrderedMaps.SizeOfValid | src/testRunner/testViewer.ts:370 | `Map.size` is the number of keys in iteration order |
| RunPoller.RunPromise.constructor | src/testRunner.ts:107 | the promise starts unsettled |
| DataWrappers.AllProblems | src/dataWrappers.ts:54-67 | the flattening `getProblems` builds; ProblemsOrder, ProblemCountIsLength, AllProblemsAppend and AllProblemsEmpty state its meaning |
| DataWrappers.Problems | src/dataWrappers.ts:54-67 | succeeds exactly when the run has a step list; iterating an absent list throws |
| DataWrappers.GetProblems | src/dataWrappers.ts:54-67 | the nested push loops produce exactly the step-by-step, check-by-check flattening, or the error for an absent step list |
| DataWrappers.PushStepProblems | src/dataWrappers.ts:57-64 | one outer iteration appends the step's own problems and then each check's problems, absent lists counting as empty |
| DataWrappers.PushAll | src/dataWrappers.ts:57-59 | pushing a list appends exactly its elements, in order |
| DataWrappers.HasProblems | src/dataWrappers.ts:50-52 | succeeds exactly when `getProblems` does |
| DataWrappers.HasPassed | src/dataWrappers.ts:74-85 | fails exactly for a present but empty step list, where the missing last step is dereferenced |
| DataWrappers.ChecksProblemsAppend | src/dataWrappers.ts:60-64 | flattening a concatenation of check lists concatenates their flattenings |
| DataWrappers.AllProblemsAppend | src/dataWrappers.ts:56-65 | flattening a concatenation of step lists concatenates their flattenings, so steps keep their order |
| DataWrappers.ProblemsOrder | src/dataWrappers.ts:54-67 | each step contributes its own problems and then its checks' problems in check order, between the steps before and after it |
| DataWrappers.CheckCountIsLength | src/dataWrappers.ts:60-64 | the flattened checks hold exactly the sum of the checks' list lengths |
| DataWrappers.ProblemCountIsLength | src/dataWrappers.ts:56-65 | the flattened run holds exactly the sum of all step-level and check-level list lengths |
| DataWrappers.ProblemsCount | src/dataWrappers.ts:56-64 | with a present step list, `getProblems` returns exactly as many problems as the lists hold, absent lists counting as empty |
| DataWrappers.ChecksProblemsEmpty | src/dataWrappers.ts:60-64 | the flattened checks are non-empty exactly when some check has a non-empty list |
| DataWrappers.AllProblemsEmpty | src/dataWrappers.ts:56-65 | the flattened run is non-empty exactly when some step or check has a non-empty list |
| DataWrappers.HasProblemsIff | src/dataWrappers.ts:50-52 | `hasProblems` is true exactly when some step or check reports a problem, and false exactly when none does |
| DataWrappers.HasPassedLastCheck | src/dataWrappers.ts:80-83 | when the last step has checks, the verdict is the last check's status, whatever the earlier steps, checks and the step's own status |
| DataWrappers.HasPassedLastStep | src/dataWrappers.ts:80-84 | when the last step has no checks, the verdict is that step's own status |
| DataWrappers.AllPassedPasses | src/dataWrappers.ts:74-85 | a run whose every step and check passed passes |
| DataWrappers.LastCheckDecides | src/dataWrappers.ts:81-83 | one failed last check fails the run even when the step and an earlier check passed |
| OrderedMaps.Spread | src/testCase.ts:23 | `{ ...m, ...data }` keeps every earlier key in its position, appends the keys only `data` has in `data`'s order, and lets `data`'s values win |
| OrderedMaps.SpreadOfEmpty | src/testCase.ts:23 | spreading a record into an empty one gives that record back, key order included |
| TestCases.EntriesOf | src/testCase.ts:34-35 | one entry per key, in key order, carrying that key, its value and the given sensitivity |
| TestCases.TestStep.ToData | src/testCase.ts:32-46 | `toData()` of a step, which is StepToData of its fields; StoresRoundTrip, PlainBeforeSecure and KeyInBothStores state its meaning |
| TestCases.StepToData | src/testCase.ts:32-46 | copies the description and the checks, sets `other` to the empty string, and lists the plain entries (not sensitive) in store order followed by the secure entries (sensitive) in store order, as many as both stores hold keys |
| TestCases.FromEntries | src/testCase.ts:33-36 | rebuilding a store from serialised entries yields a well-formed insertion-ordered record |
| TestCases.TestStep.constructor | src/testCase.ts:6-15 | a new step has its description, no checks and two empty stores |
| TestCases.TestStep.Check | src/testCase.ts:17-20 | appends the description at the end of the checks, leaves the stores alone and returns the same step |
| TestCases.TestStep.Data | src/testCase.ts:22-25 | merges the record into the plain store with spread semantics and returns the same step, leaving checks and the secure store alone |
| TestCases.TestStep.SecureData | src/testCase.ts:27-30 | the same merge on the secure store, leaving checks and the plain store alone |
| TestCases.NameOf | src/testCase.ts:63 | a given name is kept, even the empty one; only an absent name falls back to the id |
| TestCases.TestCase.constructor | src/testCase.ts:61-65 | stores the id, the defaulted name and the url, with no steps |
| TestCases.TestCase.AddStep | src/testCase.ts:67-71 | appends one fresh step with no checks and empty stores, returns it and leaves the earlier steps as they were |
| TestCases.TestCase.Run | src/testCase.ts:73-81 | fails with the "not initialized" error and creates no runner exactly when the client is not initialised; otherwise returns a fresh runner that has just sent its start request |
| TestCases.PlainBeforeSecure | src/testCase.ts:33-36 | an entry is sensitive exactly when it lies after all the plain entries, so no secure entry precedes a plain one |
| TestCases.KeyInBothStores | src/testCase.ts:33-36 | a key in both stores appears exactly twice: once plain with its plain value and once secure with its secure value |
| TestCases.KeyOnlyAt | src/testCase.ts:34 | within one store's entries, each key appears at exactly its position in the store |
| TestCases.FromEntriesSkips | src/testCase.ts:33-36 | entries of the other sensitivity appended after do not change a rebuilt store |
| TestCases.FromEntriesOf | src/testCase.ts:34-35 | rebuilding from a store's own entries gives back its keys in order and their values |
| TestCases.StoresRoundTrip | src/testCase.ts:32-36 | from the serialised entries one recovers exactly the plain store (from the non-sensitive ones) and exactly the secure store (from the sensitive ones) |
| TestCases.PlainRoundTrip | src/testCase.ts:34 | the plain store comes back from its entries whatever secure entries follow them |
| TestCases.SecureRoundTrip | src/testCase.ts:35 | the secure store comes back from its entries whatever plain entries precede them |
| TestCases.SkipsPrefix | src/testCase.ts:33-36 | entries of the other sensitivity placed before do not change a rebuilt store |
| TestCases.DataOverridesInPlace | src/testCase.ts:22-25 | after `data`, earlier keys keep their positions, a key the record has takes the record's value, other keys keep theirs, and the key set is the union |
| TestCases.BuildExample | src/testCase.ts:17-46 | the chain `addStep("Login").check(..).check(..).data({user}).secureData({password})` serialises to the two checks and the plain entry before the secure one |
| RunPoller.TestRunner.constructor | src/testRunner.ts:103-113 | creates the single pending promise and issues the start request; no run id, timer or callback yet |
| RunPoller.TestRunner.Poll | src/testRunner.ts:150-160 | without a non-empty run id it throws "Polling before run started" and makes no request; otherwise it asks for the status of the stored run |
| RunPoller.TestRunner.ReceiveStart | src/testRunner.ts:119-128 | a failed start reply ends the chain; otherwise the reply's id is stored before the first poll, which follows at once |
| RunPoller.TestRunner.SchedulePoll | src/testRunner.ts:143-148 | schedules exactly one new timer and remembers its handle, changing nothing else |
| RunPoller.TestRunner.ReceiveStatus | src/testRunner.ts:160-171 | a done snapshot resolves the promise with that snapshot; any other reply schedules exactly one more poll; a failed request leaves the promise pending |
| RunPoller.TestRunner.FirePollTimer | src/testRunner.ts:145-147 | the timer polls again with the stored run id |
| RunPoller.TestRunner.OnProgress | src/testRunner.ts:175-178 | replaces the stored progress callback, keeps the problem callback and returns the same runner |
| RunPoller.TestRunner.OnProblem | src/testRunner.ts:180-183 | replaces the stored problem callback, keeps the progress callback and returns the same runner |
| RunPoller.TestRunner.Then | src/testRunner.ts:208-214 | every awaiter gets the one promise made by the constructor |
| RunPoller.TestRunner.RunToEnd | src/testRunner.ts:119-172 | the chain of replies and timers ends resolved with the outcome's snapshot, or pending on its error, after one request per poll |
| RunPoller.ResolvesAtFirstDone | src/testRunner.ts:166-171 | polling resolves with a snapshot after `n` requests exactly when reply `n-1` is that done snapshot and every earlier reply was a successful snapshot not yet done |
| RunPoller.StallsAtFirstFailure | src/testRunner.ts:160-171 | polling stops on an error after `n` requests exactly when the replies before were not-done snapshots and reply `n-1` failed, or ran past the last reply |
| RunPoller.NoRunIdNoPoll | src/testRunner.ts:150-153 | a start reply with an empty id ends the run before any status request |
| RunPoller.AwaitRun | src/testRunner.ts:103-172 | awaiting a runner yields exactly the first done snapshot, after one status request per reply up to it; without a usable run id it makes no status request and never settles |
| Renderer.Advance | src/testRenderer.ts:68 | the next spinner index always lies in [0, 10) |
| Renderer.AdvanceTimesMod | src/testRenderer.ts:68 | after `n` frames the spinner index is the start index plus `n`, modulo 10 |
| Renderer.SpinnerCycle | src/testRenderer.ts:5-6 | the spinner returns to its glyph after `n` frames exactly when `n` is a multiple of 10, so all ten glyphs are shown in turn |
| Renderer.StatusSymbol | src/testRenderer.ts:152-159 | `getStatusSymbol`; StatusSymbolRoundTrip states that it is total and one-to-one |
| Renderer.SeveritySymbol | src/testRenderer.ts:161-170 | `getSeveritySymbol`; SeveritySymbolRoundTrip states that it is total and one-to-one |
| Renderer.StatusSymbolRoundTrip | src/testRenderer.ts:152-159 | `getStatusSymbol` is total over the three statuses, each glyph one character, and the glyph identifies the status |
| Renderer.SeveritySymbolRoundTrip | src/testRenderer.ts:161-170 | `getSeveritySymbol` is total over the five severities, each glyph one character, and the glyph identifies the severity |
| Renderer.FindPending | src/testRenderer.ts:87 | `findIndex` gives -1 exactly when no step is pending, and otherwise the index of the first pending step |
| Renderer.ActiveStepIndex | src/testRenderer.ts:87-88 | the active step is the first pending one, or the last step when none is pending, and -1 exactly when there are no steps |
| Renderer.ProgressBar | src/testRenderer.ts:144-150 | `createProgressBar`; FilledBounds, ProgressBarShape and FilledMonotone state its layout |
| Renderer.FilledBounds | src/testRenderer.ts:144-147 | the number of `=` cells for `current <= total` lies in [0, 30] |
| Renderer.ProgressBarShape | src/testRenderer.ts:144-150 | the bar is 33 characters: `[`, `filled` `=`, the `>` head, `30 - filled` spaces, `]` |
| Renderer.FilledMonotone | src/testRenderer.ts:144-147 | the filled part never shrinks as `current` grows, is empty at 0 and full at `total` |
| Renderer.RecentActions | src/testRenderer.ts:103 | `slice(-5)` keeps the last min(5, n) actions in their original order |
| Renderer.RecentActionsSlide | src/testRenderer.ts:103 | one more action enters the window at its end and, once five are shown, pushes out the oldest |
| Renderer.StatusLabel | src/testRenderer.ts:95 | RUNNING while the run is not done; once done, PASSED or FAILED according to `hasPassed`, which throws exactly for an empty step list |
| Renderer.FrameLines | src/testRenderer.ts:64-142 | a frame throws exactly when a polled run has no step list, or is done with an empty step list |
| Renderer.TestRenderer.constructor | src/testRenderer.ts:5-12 | spinner at 0, no interval, no run, no test case, inactive, nothing drawn |
| Renderer.TestRenderer.StartRendering | src/testRenderer.ts:17-36 | records the test and activates; sets a new interval only when none is set, so at most one interval is ever live |
| Renderer.TestRenderer.UpdateData | src/testRenderer.ts:57-59 | only the stored run changes |
| Renderer.TestRenderer.RenderFrame | src/testRenderer.ts:64-142 | without a test case nothing happens; otherwise the spinner advances by one modulo 10 and the frame drawn is exactly `FrameLines`, an empty console when it throws |
| Renderer.TestRenderer.StopRendering | src/testRenderer.ts:41-52 | deactivates and clears the interval (a second call leaves the interval state unchanged) and redraws only when both a run and a test case are known |
| Renderer.TestRenderer.Tick | src/testRenderer.ts:25-34 | a firing while active draws a frame; once the run is done it also stops rendering, which redraws the same final frame and leaves no live interval |
| Renderer.LogActions | src/testRenderer.ts:104-110 | the loop prints one line per recent action, or "No actions yet" when there are none |
| Renderer.LogChecks | src/testRenderer.ts:122-125 | the loop prints one line per check, in order |
| Renderer.LogSteps | src/testRenderer.ts:114-126 | the loop prints each step's line followed by its checks' lines, in order |
| Renderer.LogProblems | src/testRenderer.ts:129-139 | the loop prints the problems heading and three lines per problem, or nothing when there are no problems |
| Renderer.FrameWithoutRun | src/testRenderer.ts:77-80 | with no run yet the frame is just the name line with the spinner and "Test run starting..." |
| Renderer.HeaderWhileRunning | src/testRenderer.ts:92-95 | while the run is not done the header opens with the spinner glyph and ends in `[RUNNING]` |
| Renderer.HeaderWhenDone | src/testRenderer.ts:92-95 | once the run is done the header has no spinner and says PASSED or FAILED by `hasPassed` |
| Renderer.FrameOfRun | src/testRenderer.ts:83-141 | a run whose status can be read is drawn as header, bar, recent actions, step tree, problems and the closing line |
| Renderer.FrameStartsWithHeader | src/testRenderer.ts:95 | the first line of a run's frame is its header |
| Renderer.DoneFrameIgnoresSpinner | src/testRenderer.ts:92 | a finished run's frame is the same whatever the spinner index |
| Renderer.ProblemLinesInOrder | src/testRenderer.ts:132-138 | problem `i` occupies lines `3i` to `3i+2`: glyph, title and severity, then expected, then actual |
| Renderer.FrameListsProblems | src/testRenderer.ts:128-141 | the frame ends with the problems heading and every problem of `getProblems` in order, or with no problems section when there are none |
| Renderer.RecentActionLines | src/testRenderer.ts:101-110 | the action lines are the last actions in their original order, or "No actions yet" for none |
| ViewerModel.PendingState | src/testRunner/testViewer.ts:62-66 | a fresh state is pending under the given display name, with no renderer, times, error or url |
| ViewerModel.UpdatedState | src/testRunner/testViewer.ts:137-154 | the update of an existing state; UpdatedStateFields, UrlIsKept, UpdateIsIdempotent and RunThenFinish state its meaning |
| ViewerModel.CreatedState | src/testRunner/testViewer.ts:120-131 | the state created for a registered test without one; CreatedIsUpdatedPending relates it to UpdatedState |
| ViewerModel.UpdatedStateFields | src/testRunner/testViewer.ts:136-155 | the status always changes; 'running' sets the start time and sets the url only when it was unset or empty; 'passed'/'failed' set the end time and store a supplied error only for 'failed'; test case, display name and renderer are never touched |
| ViewerModel.UrlIsKept | src/testRunner/testViewer.ts:143-145 | a non-empty url survives every transition |
| ViewerModel.UpdateIsIdempotent | src/testRunner/testViewer.ts:136-155 | repeating a transition at the same instant changes nothing more |
| ViewerModel.RunThenFinish | src/testRunner/testViewer.ts:139-150 | running then finishing records both instants and a url, and passing keeps the earlier error |
| ViewerModel.CreatedIsUpdatedPending | src/testRunner/testViewer.ts:120-131 | a state created for a registered test equals its pending state updated to the new status, except that no end time is recorded |
| ViewerModel.GroupTestsStep | src/testRunner/testViewer.ts:96-106 | the tests of groups `i..` are group `i`'s tests followed by those of the later groups |
| ViewerModel.FilesTestsStep | src/testRunner/testViewer.ts:83-107 | the tests of files `i..` are file `i`'s tests followed by those of the later files |
| ViewerModel.FirstWithId | src/testRunner/testViewer.ts:161-184 | no test is found exactly when no test has the id, and a found test has it |
| ViewerModel.FirstWithIdIsFirst | src/testRunner/testViewer.ts:165-181 | the found test is the earliest one with that id |
| ViewerModel.FirstOfConcat | src/testRunner/testViewer.ts:165-181 | searching two lists in turn finds the first match of the first list, else the first of the second |
| ViewerModel.FirstStep | src/testRunner/testViewer.ts:167-171 | one loop step either returns the test at index `k` or goes on searching from `k + 1` |
| ViewerModel.Seed | src/testRunner/testViewer.ts:61-67 | setting the states entry by entry keeps the ordered map well formed |
| ViewerModel.SeedDomain | src/testRunner/testViewer.ts:61-67 | the seeded map holds exactly the earlier keys plus the entries' render ids |
| ViewerModel.SeedUntouched | src/testRunner/testViewer.ts:61-67 | a key no entry names keeps its state |
| ViewerModel.SeedLastWins | src/testRunner/testViewer.ts:61-67 | a render id's state is the pending state of its last entry, so a later duplicate overwrites an earlier one |
| ViewerModel.SeededStates | src/testRunner/testViewer.ts:55-67 | after clearing, the states hold exactly the given render ids, all pending, each under the original id and test of its last entry |
| ViewerModel.LastIndexOf | src/testRunner/testViewer.ts:61-67 | a render id that has entries has a last one |
| ViewerModel.TestEntries | src/testRunner/testViewer.ts:86-104 | each registered test is keyed and shown by its own id |
| ViewerModel.TestEntriesStep | src/testRunner/testViewer.ts:85-93 | the entries of tests `k..` start with test `k`'s own entry |
| ViewerModel.SeedConcat | src/testRunner/testViewer.ts:83-107 | seeding from two lists of tests in turn is seeding from their concatenation |
| ViewerModel.Tally | src/testRunner/testViewer.ts:351-368 | the four status counts; TallyTotal and CountsCoverStates state their sum, Viewer.CountStates that the loop computes them |
| ViewerModel.TallyTotal | src/testRunner/testViewer.ts:351-368 | running, passed, failed and pending counts add up to the number of keys counted |
| ViewerModel.RunningIdsExact | src/testRunner/testViewer.ts:357-364 | `runningTests` holds exactly the ids whose state is running, as many as the running count |
| ViewerModel.CountsCoverStates | src/testRunner/testViewer.ts:360-370 | over the whole map, the four counts add up to `testStates.size` |
| ViewerModel.FailedEntriesExact | src/testRunner/testViewer.ts:284-286 | the failed list names exactly the failed ids, each with its state's error, one per failed state |
| ViewerModel.FailLineInjective | src/testRunner/testViewer.ts:291 | two failure lines are equal only for the same id |
| ViewerModel.FailLineIsNotErrorLine | src/testRunner/testViewer.ts:291-293 | an id line is never an error-message line |
| ViewerModel.FailureLinesNames | src/testRunner/testViewer.ts:290-295 | the id lines of the failure listing name exactly the listed ids |
| ViewerModel.SummaryLines | src/testRunner/testViewer.ts:284-303 | the final summary; SummaryNamesFailed, SummaryWithFailures and SummaryAllPassed state its meaning |
| ViewerModel.SummaryNamesFailed | src/testRunner/testViewer.ts:284-303 | the summary has an id line for a test exactly when that test's state is failed |
| ViewerModel.SummaryWithFailures | src/testRunner/testViewer.ts:288-295 | with failures, the summary is their count heading followed by each failure in map order |
| ViewerModel.SummaryAllPassed | src/testRunner/testViewer.ts:296-302 | the "All N tests passed!" line appears exactly when nothing failed and at least one test passed, and is then the only line; the summary is empty exactly when nothing failed or passed |
| ViewerModel.NotAllPassedInFailures | src/testRunner/testViewer.ts:290-295 | no failure line looks like the all-passed line |
| ViewerModel.StatusSymbol | src/testRunner/testViewer.ts:311-325 | `getStatusSymbol` of the viewer; StatusSymbolRoundTrip states that it is total and one-to-one |
| ViewerModel.StatusSymbolRoundTrip | src/testRunner/testViewer.ts:311-325 | `getStatusSymbol` is total over the four statuses, each glyph one character, and the glyph identifies the status whatever the spinner frame |
| ViewerModel.JsRem | src/testRunner/testViewer.ts:337 | JavaScript's `%` agrees with the mathematical remainder on non-negative operands |
| ViewerModel.ZeroClock | src/testRunner/testViewer.ts:331 | the "00:00" of a zero duration is also what the general formula gives for 0 |
| ViewerModel.FormatElapsed | src/testRunner/testViewer.ts:330-338 | `formatElapsedTime`; ZeroClock, FormatElapsedNat and ElapsedRoundTrip state its meaning |
| ViewerModel.ClockParts | src/testRunner/testViewer.ts:330-338 | every non-negative duration, 0 included, prints as its hours part followed by its minutes-and-seconds part |
| ViewerModel.FormatElapsedNat | src/testRunner/testViewer.ts:330-338 | for `ms >= 0`, with `s = ms div 1000`, `m = s div 60` and `h = m div 60`, the clock is `pad2(h) + ":"` when `h > 0`, then `pad2(m mod 60) + ":" + pad2(s mod 60)` |
| ViewerModel.ElapsedRoundTrip | src/testRunner/testViewer.ts:330-338 | the clock splits into two-digit fields (three exactly when an hour has elapsed), minutes and seconds below 60, that give back the whole seconds |
| ViewerModel.ElapsedFieldsWithHours | src/testRunner/testViewer.ts:337 | with hours, the fields read back as hours, minutes mod 60 and seconds mod 60 |
| ViewerModel.ElapsedFieldsWithoutHours | src/testRunner/testViewer.ts:337 | without hours, the fields read back as minutes mod 60 and seconds mod 60 |
| ViewerModel.ClockArithmetic | src/testRunner/testViewer.ts:333-337 | hours, minutes mod 60 and seconds mod 60 add back up to the whole seconds |
| ViewerModel.PadDigits | src/testRunner/testViewer.ts:337 | `toString().padStart(2, '0')` of a natural is a digit string that reads back as the number, two long below 100 |
| Viewer.TestViewer.constructor | src/testRunner/testViewer.ts:27-38 | takes the registry; all maps and sets empty, spinner at 0, no interval, nothing printed |
| Viewer.TestViewer.AddLoadedFile | src/testRunner/testViewer.ts:43-45 | adds the path to the loaded files and changes nothing else |
| Viewer.TestViewer.InitializeTestStatesWithRenderIds | src/testRunner/testViewer.ts:50-68 | empties the runtimes and renderers and replaces the states with the seeding of the entries into an empty map |
| Viewer.TestViewer.InitializeTestStates | src/testRunner/testViewer.ts:74-108 | empties the runtimes and renderers and seeds a pending state under its own id for every registered test, in registry order |
| Viewer.TestViewer.FindTestCaseById | src/testRunner/testViewer.ts:161-184 | returns the first registered test with the id, in file, ungrouped-then-group order, or none |
| Viewer.TestViewer.UpdateTestStatus | src/testRunner/testViewer.ts:113-156 | an existing state takes the transition; a missing one is created from the first registered test with the id; with neither, only a warning line is added |
| Viewer.TestViewer.GetTestRenderer | src/testRunner/testViewer.ts:189-199 | returns a renderer exactly when the test has a state, the stored one when present, otherwise a fresh one in its initial state (spinner at 0, no interval, no run, no test case, inactive, nothing drawn) now stored in the state |
| Viewer.TestViewer.StartRendering | src/testRunner/testViewer.ts:204-213 | clears any interval and sets a new one, so exactly one interval is live |
| Viewer.TestViewer.RenderTestTree | src/testRunner/testViewer.ts:343-376 | advances the spinner modulo 10 and emits a frame headed by the total, the four counts and a blank line |
| Viewer.TestViewer.Tick | src/testRunner/testViewer.ts:210-212 | one firing of the interval renders one frame |
| Viewer.TestViewer.StopRendering | src/testRunner/testViewer.ts:274-306 | no interval remains live and the handle counter is kept, a final frame is rendered and the summary lines are logged |
| Viewer.TestViewer.ClearInterval | src/testRunner/testViewer.ts:275-278 | afterwards no interval is set or live, and nothing else changes |
| Viewer.TestViewer.LogSummary | src/testRunner/testViewer.ts:284-303 | appends exactly the summary lines of the states to the console |
| Viewer.TestViewer.RegisterRuntime | src/testRunner/testViewer.ts:218-253 | records the runtime and marks it managed; creates a renderer in its initial state and installs the progress callback only when the test has a state and no renderer, never replacing one |
| Viewer.TestViewer.AttachRenderer | src/testRunner/testViewer.ts:228-250 | adds one fresh renderer in its initial state under the id and one progress callback for the runtime |
| Viewer.TestViewer.UnregisterRuntime | src/testRunner/testViewer.ts:258-269 | marks a known runtime unmanaged, removes the id from the runtimes and keeps its renderer |
| Viewer.TestViewer.OnProgress | src/testRunner/testViewer.ts:234-250 | the test's renderer takes the run and keeps every other field; the state's url becomes `run.getUrl()` unless that throws; other renderers are untouched |
| Viewer.TestViewer.FeedRenderer | src/testRunner/testViewer.ts:235-238 | only the test's own renderer, if any, takes the run, and its other fields keep their values |
| Viewer.TestViewer.CaptureUrl | src/testRunner/testViewer.ts:241-249 | an existing state takes the url `getUrl` returns; a thrown error or a missing state leaves the states alone |
| Viewer.SeedEntries | src/testRunner/testViewer.ts:61-67 | the loop over the entries produces exactly the seeding |
| Viewer.CountStates | src/testRunner/testViewer.ts:351-368 | the counting loop produces exactly the tally by status and the running ids in map order |
| Viewer.CollectFailed | src/testRunner/testViewer.ts:284-286 | the filter-and-map produces exactly the failed entries with their errors, in map order |
| Viewer.Summary | src/testRunner/testViewer.ts:288-303 | the logging code produces exactly the summary lines |
| Viewer.SeedTests | src/testRunner/testViewer.ts:85-93 | the loop over a list of tests seeds each under its own id, in order |
| Viewer.SeedGroups | src/testRunner/testViewer.ts:96-106 | the loop over the groups seeds every group's tests, group by group |
| Viewer.SeedFile | src/testRunner/testViewer.ts:84-106 | one file seeds its ungrouped tests, then its groups' tests |
| Viewer.SeedFiles | src/testRunner/testViewer.ts:83-107 | the loop over the files seeds every registered test in registry order |
| Viewer.FindInList | src/testRunner/testViewer.ts:167-171 | the loop returns the first test of the list with the id, or none |
| Viewer.FindInGroups | src/testRunner/testViewer.ts:174-180 | the loop returns the first test with the id among the groups, in group order |
| Viewer.FindInFile | src/testRunner/testViewer.ts:167-180 | one file is searched in its ungrouped tests first, then its groups |
| Viewer.FindInFiles | src/testRunner/testViewer.ts:165-183 | the loop returns the first registered test with the id, in registry order, or none |
| Client.KeyFromEnv | src/client.ts:9 | a key is present exactly when the environment variable is set and non-empty, and then it is the variable's value |
| Client.Magnitude.constructor | src/client.ts:7-11 | the key comes from the environment, and the instance is initialised exactly when that key is non-empty |
| Client.Magnitude.GetApiKey | src/client.ts:31-36 | returns the stored key exactly when it is present and non-empty; otherwise fails with the "Magnitude not initialized" error |
| Client.Statics.constructor | src/client.ts:3 | the static instance slot starts out empty |
| Client.Statics.GetInstance | src/client.ts:23-29 | the first call constructs an instance from the environment; every later call returns that same instance |
| Client.Statics.Init | src/client.ts:13-17 | stores the given key on the single instance and marks it initialised, whatever the key is, creating the instance if needed |
| Client.Statics.IsInitialized | src/client.ts:19-21 | returns the flag of the existing instance, or the environment-derived flag of a freshly constructed one |
| Client.InitWithEmptyKey | src/client.ts:13-36 | after `init("")` the client reports initialised, yet `getApiKey` still fails |
| Client.FromEnvironment | src/client.ts:7-36 | without `init`, the client is initialised and gives a key exactly when the environment supplies a non-empty key, and the key it gives is that one |
| Client.InitThenKey | src/client.ts:13-36 | after `init(k)` with a non-empty `k`, `getApiKey` returns `k`, whether or not the instance already existed |
| Client.InstanceIsShared | src/client.ts:23-29 | two `getInstance` calls return the same object |

## Left out

- `getHash`: a SHA-256 digest of `JSON.stringify`, a foreign call that nothing else in the core uses.
- URL parsing: `IsLocalUrl` takes the hostname the WHATWG parser would produce, or `None` when the parser throws. Normalisations the parser performs, such as rewriting IPv4-mapped IPv6 hosts, are not modelled.
- Text.ToLowerAscii: lowercases ASCII letters only, while `toLowerCase` also folds non-ASCII letters.
- Renderer.FilledBounds: the progress bar uses integer floor division in place of floating-point `Math.floor((current / total) * 30)`. For `total == 0`, JavaScript computes NaN and prints `[>]`; the model prints the same.
- Timers: `setInterval`/`setTimeout` become explicit `Tick` and `FirePollTimer` methods. The 100 ms render and 1000 ms poll periods are not modelled.
- Terminal output: `console.clear`, `chalk` colours and `logUpdate` are modelled as appending uncoloured strings to a frame or console sequence. `logUpdate.done()` has no modelled effect.
- Diagnostic logging: the runner's `console.log("Test Case:", …)`, `console.log("Polling...")` and `console.log("Run:", run)` (src/testRunner.ts:121, 155 and 162) and the classifier's `console.error('Invalid URL:', error)` (src/util.ts:55) have no effect in the model.
- Viewer.TestViewer.RenderTestTree: keeps only the heading lines of a tree frame (total, the four counts, blank line). The per-file tree lines, timing details, running-test details and embedded renderer output are not modelled.
- `getRenderedOutput` and `updateTestCase` are called by the viewer but are not defined in `src/testRenderer.ts`, so they are not part of this model.
- Viewer.TestViewer.AttachRenderer: the call `renderer.updateTestCase(state.testCase)` at src/testRunner/testViewer.ts:230 names a method the renderer does not have, so as written it would throw before the renderer is stored. The model stores the renderer in its initial state, holding no test case.
- The test registry, test runtimes and test compiler are not part of this model. The registry is an input value (files in key order, each with ungrouped tests and named groups). A runtime is an opaque identity. `run.getUrl()` is a `Result` parameter, and an error is its message string.
- `TestCase.getId`, `getUrl` and `toData` are called by the viewer, renderer and runner, but the `TestCase` class of `src/testCase.ts` defines none of them. They are read as the test case's id, name and url; the steps built by `addStep` are not sent with the start request.
- `Magnitude` in `src/client.ts` defines no `startTestRun` or `getTestRunStatus`, although `src/testRunner.ts:122` and `src/testRunner.ts:160` call them. The script of responses given to the poller stands in for both calls.
- Viewer.TestViewer.UpdateTestStatus: timestamps are integers from a `now` parameter, and NaN is not modelled. A state created directly as passed or failed gets no end time, because the code sets none.
- Renderer.TestRenderer.RenderFrame: an exception thrown while drawing is modelled as an empty frame.
- The polling network calls are a script of responses given as a parameter. Read past its end, a request counts as failed. HTTP transport, authentication and the axios client in `src/api.ts` are not part of this model.
- `src/testRunner/cli.ts` (argument parsing, file discovery, `process.exit`) and the usage examples are not part of this model.
- `Object.entries` lists integer-like keys first in ascending order. The model treats every record as ordered by insertion only.
