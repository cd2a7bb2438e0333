# Splinterm tooling, modelled and proved in Dafny

This project models the decision logic of Splinterm's Python tooling and proves what it promises over
all inputs and all runs. `dafny verify dfyconfig.toml` checks everything.

| modules | what they model |
|---|---|
| `CargoChecks`, `CheckRun` | the Cargo plan of a validation job and the durable record of running it |
| `JobReceipt`, `JobMachine`, `JobTheorems`, `JobStore` | the remote job protocol: one durable receipt, changed under a lock by submitters, pollers, cancellers and runners while a service manager starts and stops the job |
| `Topology`, `KdlText`, `ZellijLayout`, `Geometry` | split trees compiled to a tmux script and to a Zellij layout text, and their cell geometry |
| `Capture`, `Picture`, `BufferCompare`, `ComparisonLaws` | captured buffers, the pictures they hold and their pixel comparison |
| `ProcessTree`, `ProcessScan` | the breadth-first process tree, process roles, and scans of a process table that keeps changing |
| `CaseIdentity`, `CatchupPlan`, `CapturePhase`, `Debounce` | the catch-up benchmark: schedule, capture evidence, waiting for quiet |
| `RecordReader`, `ReadSplits`, `SubscribeLoop`, `EventStream` | the event subscription that reads records from arbitrarily split reads |
| `OrderStatistics`, `SampleSummary` | summary statistics and the grouping of samples |
| `Basics`, `Wrappers` | small notions and result types shared by the others |

Code that updates state is modelled by classes and methods with loops; each is proved against a
specification, and the laws are lemmas about that specification. Python exceptions are `Failure` results.

Assumptions about the world outside the code:

- *Job protocol.* `atomic_json` writes all or nothing. SHA-256 is an injective token. A step of the machine
  is one section under the job lock, or one step of the environment. Invoking `systemd-run` may start the
  unit at once, later or never, and at most once. A runner exists only while the unit is active; a
  successful stop needs a loaded unit and leaves no runner behind. Any process may die between two steps.
- *Scans.* A (pid, start time) pair that is gone never comes back; any time passes between two reads.
- *Clocks* never run backward, and the loops of `Debounce` and `CapturePhase` are given some pass at which
  their deadline is over.
- *Shuffles* deliver permutations of the ten cell names, any permutations.

## Where the code falls short of the simple statement

Each case has a lemma at failing inputs and the exact condition under which the statement holds.

- Completed, failed and cancelled receipts are final without exception (`SettledIsFinal`). A recorded
  intent to cancel, and an interruption a poll has inferred, is lasting if and only if the submission that
  created the job is over: between writing `claimed` and taking the job lock both can be overwritten
  (`WindowLosesCancellation`, `WindowLosesInterruption`, `CancelIntentKeptIffReleased`,
  `TerminalIsFinalIffReleased`).
- The Zellij layout reads back if and only if no pane name or argument holds a control character that
  JSON writes as a four-digit `\u` escape, which is not an escape of KDL 1.0 (`EscapeCharacterIsUnreadable`,
  `LayoutReadsBack`).
- Every way of splitting the reads of a subscription gives the outcome of a fold over its records if and
  only if nothing follows the record that ends it and every record that is looked at has room: with its
  buffer, one more read or all that is left of the stream stays within 8 MiB (`TrailingByteDepends`,
  `OversizedEventDepends`, `EverySplitFoldsIff`).
- Signals meant for an incarnation reach that incarnation or nobody if and only if no process id is
  inherited by another process after its holder was seen: the filter and the signal are two steps
  (`StrangerIsSignalled`, `OnTargetIffNeverInherited`). That true means dead for good is not affected.
- The named layouts pass the geometry validator if and only if no pane is empty: from 1x1, 2x1 and 2x2
  cells on (`NarrowGridIsRefused`, `LayoutIsValid`).
- The median is at most the 95th percentile if and only if the sample is not a pair of different values,
  where the percentile is the smaller one (`PairIsOutOfOrder`, `StatisticsAreOrdered`).

## Model

| member | source | states |
|---|---|---|
| CargoChecks.CargoManifest | tools/agents/remote.py:127-147 | the iterator loop, which consumes a value after the option and stops at the delimiter, computes the recursive reading of the options; a missing, empty, dashed or repeated path is an error |
| CargoChecks.PlanCommands | tools/agents/remote.py:724-738 | the two loops with their set of fetched manifests compute the plan of fetches and checks |
| CargoChecks.ManifestsAreDistinct | tools/agents/remote.py:726-735 | the manifests fetched are exactly those of the commands other than fmt, each once |
| CargoChecks.ScanSelectsTheOption | tools/agents/remote.py:127-147 | a path is selected exactly when one option stands before the delimiter and names it with a nonempty value, nothing exactly when there is no option there, and every other command line is an error |
| CargoChecks.ValidCommandMeans | tools/agents/remote.py:175-190 | a command can be planned exactly when it has 2 to 64 arguments, is cargo build, check, test or clippy, or fmt with the check option, and before the delimiter no manifest option stands or just one that names a nonempty path |
| CargoChecks.SelectedIsNonempty | tools/agents/remote.py:142-143 | no selected manifest is the empty string, so a fetch can name it |
| CargoChecks.RewriteKeepsManifest | tools/agents/remote.py:736-738 | inserting the locked and offline options never changes which manifest a command selects |
| CargoChecks.FetchKeepsManifest | tools/agents/remote.py:731-733 | scanning the fetch built for a manifest selects that manifest again |
| CargoChecks.PlanIsFetchesThenChecks | tools/agents/remote.py:724-738 | all fetches precede all checks, only fetches have network, one fetch per manifest in use, and every fetch and check selects the manifest of its source command |
| CargoChecks.PlannedText | tools/agents/remote.py:724-738 | every fetch is Cargo by its full path with the lock file enforced and the manifest named, if any; every check is the same subcommand and arguments with the lock file and no network in front of them, except that fmt gets neither |
| CargoChecks.FetchedInOrderOfUse | tools/agents/remote.py:726-735 | of two fetched manifests the one whose first use comes earlier among the commands is fetched first |
| CheckRun.ChecksFile.constructor | tools/agents/remote.py:739-740 | the first durable value is a running receipt without checks |
| CheckRun.ChecksFile.Write | tools/agents/remote.py:740 | only a prefix of the plan whose records all passed but perhaps the last is ever written, and no durable value is lost from the history |
| CheckRun.ChecksFile.RunOne | tools/agents/remote.py:741-792 | one command first makes itself durable as running and then with its exit code, after the passed ones; an exception leaves that record failed and last without an exit code, or nothing written when there is no log directory |
| CheckRun.ChecksFile.Execute | tools/agents/remote.py:739-798 | the result is passed exactly when every planned command exited 0; an exception leaves exactly when some command raised after only passes, and then with its failed record last; every value that was ever durable is a prefix of the plan with all but the last passed |
| CheckRun.PassedMeansEveryCheckPassed | tools/agents/remote.py:793-798 | a final receipt says passed exactly when each planned command has a passed record, that is when all exit codes are zero and none is missing |
| CheckRun.FinalAfterFailure | tools/agents/remote.py:793-795 | the first nonzero exit code ends the run as failed with that record last |
| CheckRun.FinalAfterAll | tools/agents/remote.py:796-797 | a run without a failure ends as passed with one record per planned command |
| JobMachine.RunsCompose | tools/agents/remote.py:404-470 | runs of the protocol compose |
| JobMachine.DispatchedOnceStep | tools/agents/remote.py:404-470 | every step keeps: at most one dispatch, made by the one submission that created the directory |
| JobMachine.StartedOnceStep | tools/agents/remote.py:805-809 | every step keeps: at most one runner has passed the gate, only after the creating submission is over, and it lives only while its unit is active |
| JobMachine.GatedBefore | tools/agents/remote.py:805-809 | no step but an open gate puts a runner past it |
| JobMachine.CancelSafeStep | tools/agents/remote.py:512-531 | every step keeps: behind a terminal receipt of a released job, interrupted and cancelled included, there is no runner past the gate, and a stopped canceller means an ended unit |
| JobMachine.RecordKept | tools/agents/remote.py:848-853 | no step changes the recorded request, and only the recheck changes the recorded checks |
| JobMachine.RunnerTruthfulStep | tools/agents/remote.py:846-853 | every step keeps: what a runner carries to its verdict is what the receipt and the report file hold |
| JobMachine.ReceiptTruthfulStep | tools/agents/remote.py:894-908 | every step keeps: a completed receipt is backed by the stored report and by passed checks |
| JobTheorems.InvReachable | tools/agents/remote.py:404-531 | the four invariants hold in every reachable state of every interleaving |
| JobTheorems.CountersCount | tools/agents/remote.py:404-470 | the counters of the machine are the numbers of dispatches and gate passages in the run |
| JobTheorems.AtMostOnce | tools/agents/remote.py:404-470 | over every run with any submits, polls, cancels, starts and crashes a job is dispatched at most once, the gate is passed at most once, and there is at most one runner past it |
| JobTheorems.ResubmissionIsIdempotent | tools/agents/remote.py:405-414 | in every reachable state a resubmission changes nothing, succeeds exactly for the recorded request, and then returns the stored receipt |
| JobTheorems.LifecycleStep | tools/agents/remote.py:491-531 | after the release no step leaves the lifecycle graph, and a terminal receipt changes at most its state |
| JobTheorems.ReleasedRun | tools/agents/remote.py:491-531 | the same over whole runs: terminal digests and checks are frozen |
| JobTheorems.GatedMeansRunning | tools/agents/remote.py:805-809 | a runner past the gate of a released job works behind running or cancelling only |
| JobTheorems.SubmitterOverwrites | tools/agents/remote.py:432-470 | from every state with a live submission some continuation writes queued over the receipt |
| JobTheorems.QueuedCanRun | tools/agents/remote.py:805-809 | a queued job whose start was sent can come to run |
| JobTheorems.TerminalIsFinalIffReleased | tools/agents/remote.py:26-26 | completed, failed and cancelled never change again, and interrupted becomes at most cancelled, exactly when the creating submission is over |
| JobTheorems.CancelIntentKeptIffReleased | tools/agents/remote.py:512-531 | after cancelling no continuation reaches running, completed or failed, exactly when the creating submission is over |
| JobTheorems.TerminalMeansNoRunner | tools/agents/remote.py:491-531 | no runner is past the gate behind any terminal receipt, in every reachable state |
| JobTheorems.SettledIsFinal | tools/agents/remote.py:26-26 | in every reachable state a completed, failed or cancelled receipt never changes again, the submission is over and no runner remains |
| JobTheorems.WindowIsReachable | tools/agents/remote.py:418-432 | the state between writing claimed and taking the lock is reachable |
| JobTheorems.WindowLosesCancellation | tools/agents/remote.py:418-432 | a reachable cancelling state and a continuation in which the job runs |
| JobTheorems.WindowLosesInterruption | tools/agents/remote.py:418-432 | a reachable interrupted receipt that is not final |
| JobTheorems.CompletedIsTruthful | tools/agents/remote.py:889-908 | in every reachable state completed means the digest of the stored report, readable by the result action, the digest of the request, and for a validator every planned check passed |
| JobTheorems.VerdictIsEarned | tools/agents/remote.py:894-908 | in every reachable state a runner that reaches its verdict on a running job records completed exactly for an inspection, or when every planned check of the validation passed, and failed otherwise, with the digest of the stored report; a recorded cancellation is left alone |
| JobTheorems.EveryTaskCanBeCompleted | tools/agents/remote.py:404-470 | for every request and every report there is a run that ends completed with that report stored |
| JobTheorems.RecordedReportIsReadable | tools/agents/remote.py:951-963 | in every reachable state the result action finds the report the receipt names |
| JobTheorems.ReportIsDelivered | tools/agents/remote.py:951-963 | the report is returned exactly when it is stored and its digest is the one on record, none exactly when the job is not completed and has no digest on record, and every other case is an error |
| JobTheorems.CancelReturnsFinal | tools/agents/remote.py:512-531 | every cancel that returns, even one that began before the lock, leaves the submission over, a completed, failed or cancelled receipt that never changes again, and no runner |
| JobTheorems.LiveCanBeCancelled | tools/agents/remote.py:512-531 | from every reachable state of a job that is not over, with its unit there to be stopped, there is a run that ends cancelled without a runner |
| JobStore.JobDirectory.WriteClaim | tools/agents/remote.py:418-430 | the first write makes the digest of this request the one every later submission is compared with, before any dispatch |
| JobStore.JobDirectory.Refuse | tools/agents/remote.py:433-441 | a refused job is failed for good and was never dispatched |
| JobStore.JobDirectory.FinishSubmit | tools/agents/remote.py:442-470 | when the submission ends after its dispatch there was exactly one, no runner has started, and the gate is open |
| JobStore.JobDirectory.Resubmit | tools/agents/remote.py:405-414 | a second submission changes nothing, gets the stored receipt exactly for the recorded request and an error for any other |
| JobStore.JobDirectory.Poll | tools/agents/remote.py:491-509 | a step of the protocol: a job that is not over and whose service is gone becomes interrupted, and nothing else changes; what it reports as terminal has no runner behind it; completed, failed and cancelled are final, interrupted once the submission is over; what it reports as live has an active service |
| JobStore.JobDirectory.CancelBegin | tools/agents/remote.py:512-518 | a step of the protocol: when a stop follows, the intent is recorded and kept over every continuation once the submission is over; otherwise nothing changes |
| JobStore.JobDirectory.CancelFinish | tools/agents/remote.py:521-531 | a step of the protocol: a cancel that returns leaves a completed, failed or cancelled receipt that is final, and no runner |
| JobStore.JobDirectory.Cancel | tools/agents/remote.py:512-531 | both halves around a stop that succeeds and any steps of all other actors in between: a terminal receipt without a runner, and for a job that was live one that is settled for good |
| JobStore.JobDirectory.Gate | tools/agents/remote.py:805-809 | a step of the protocol: whoever proceeds is the first and only runner ever past the gate |
| JobStore.JobDirectory.Recheck | tools/agents/remote.py:848-853 | a step of the protocol: the runner goes on exactly while the job runs, with its own checks on record; otherwise a cancellation is on record and stays |
| JobStore.JobDirectory.Finish | tools/agents/remote.py:894-908 | a step of the protocol: a running job becomes completed exactly when it is an inspection or all of its planned checks passed, and failed otherwise, always with the digest of the stored report; exit code 0 exactly for completed; a cancellation is left alone and no runner remains |
| JobStore.JobDirectory.Fail | tools/agents/remote.py:909-913 | a step of the protocol: the job has failed for good unless it is being cancelled, and no runner remains |
| Topology.FirstPane | tools/benchmark/multiplexing.py:247-248 | the anchor is the first of the pane names in order |
| Topology.UniqueIsDistinct | tools/benchmark/multiplexing.py:130-134 | unique names in the flat list mean disjoint names in every two subtrees |
| Topology.ValidMeansWellFormed | tools/benchmark/multiplexing.py:130-149 | a tree is accepted exactly when no two panes share a name and every part of it is a pane with a nonempty name free of white space, by code point, or a split in one of the two directions with a ratio from 1 to 999 |
| Topology.TmuxCompiler.Materialize | tools/benchmark/multiplexing.py:164-184 | the recursion on the shared action list appends the script of the subtree, and raises exactly when the existing pane is not the anchor |
| Topology.TmuxActions | tools/benchmark/multiplexing.py:152-187 | succeeds exactly for valid topologies with one command per pane; the anchor errors never fire |
| Topology.ScriptGrafts | tools/benchmark/multiplexing.py:164-184 | in any session that holds the anchor and none of the other panes, replaying a subtree's script succeeds and replaces the anchor leaf by the subtree |
| Topology.ReplayRebuilds | tools/benchmark/multiplexing.py:152-187 | replaying the script rebuilds exactly the tree, with directions, ratios and the command of every pane; each target exists and no pane is created twice |
| Topology.ScriptCreatesEachPaneOnce | tools/benchmark/multiplexing.py:164-184 | the panes a script creates and the anchor are exactly the panes of the tree, counted |
| Topology.FourGridScript | tools/benchmark/multiplexing.py:164-184 | the actions of the four-pane grid in the order they are emitted, with targets, directions, ratios and commands |
| KdlText.ReadQuoted | tools/benchmark/multiplexing.py:263-264 | reading a JSON-quoted string as a KDL 1.0 string gives the string back exactly when it holds no control character outside the shared escapes, and fails otherwise |
| KdlText.LexQuoted | tools/benchmark/multiplexing.py:263-264 | a quoted string in any context is one string token, or makes the text unreadable |
| KdlText.JsonReadsBack | tools/benchmark/multiplexing.py:263-264 | read as JSON, every quoted string is read back, control characters included |
| ZellijLayout.Compile | tools/benchmark/multiplexing.py:190-224 | a layout is produced exactly for valid topologies with one command per pane, and a reader that takes "vertical" for side by side and "horizontal" for stacked gets the tree back, with directions, names and commands, exactly when all strings are clean |
| ZellijLayout.LexNode | tools/benchmark/multiplexing.py:201-222 | the rendered lines of any subtree at any indentation lex to its tokens |
| ZellijLayout.ParseRendered | tools/benchmark/multiplexing.py:201-222 | parsing the tokens of any subtree gives its tree with its own directions and without ratios, and leaves the rest of the input |
| ZellijLayout.LayoutReadsBack | tools/benchmark/multiplexing.py:190-224 | parsing the layout text recovers the tree up to ratios with the direction of every split, every name and every full command, exactly when all strings are clean; otherwise it cannot be read |
| ZellijLayout.BackendsAgree | tools/benchmark/multiplexing.py:152-224 | parsing the layout equals replaying the tmux script and forgetting the ratios: both backends put every split in the same direction |
| ZellijLayout.HalvesAreIndented | tools/benchmark/multiplexing.py:218-222 | between the braces of a split stand the lines of both halves, each four blanks further in |
| ZellijLayout.EscapeCharacterIsUnreadable | tools/benchmark/multiplexing.py:263-264 | a valid one-pane topology with an escape character in an argument whose layout cannot be read |
| Geometry.HalvingTiles | tools/benchmark/graphical_multiplexer.py:138-179 | recursive floor halving of any tree with distinct names tiles the area: every cell lies in exactly one pane and no pane reaches outside |
| Geometry.RectanglesHalve | tools/benchmark/graphical_multiplexer.py:138-179 | the table of rectangles exists exactly for positive sizes and known names and equals floor halving of the named tree |
| Geometry.NamedTopologies | tools/benchmark/multiplexing.py:104-119 | the three named topologies with their pane names, directions and equal ratios; all of them are valid |
| Geometry.RoundIsNear | tools/benchmark/graphical_multiplexer.py:265-265 | rounding half to even is off by at most one half |
| Geometry.CeilingIsNear | tools/benchmark/graphical_multiplexer.py:266-266 | the tolerance is the least integer not below the quotient |
| Geometry.OneCellIsAccepted | tools/benchmark/graphical_multiplexer.py:263-267 | parts that differ by at most one cell pass the ratio test, whatever the total |
| Geometry.AcceptanceBoundsGap | tools/benchmark/graphical_multiplexer.py:263-267 | passing the ratio test bounds the difference: 1000 times it is below 2000 plus 3 times the total |
| Geometry.AcceptsIffBalanced | tools/benchmark/graphical_multiplexer.py:263-267 | for a positive total the ratio test passes exactly when 1000 times the difference is below (2k+1) times the total, or equal to it with k even, k being the least number of thousandths that make up a cell |
| Geometry.AcceptsNegative | tools/benchmark/graphical_multiplexer.py:263-267 | for a negative total exactly parts of more than 1000 cells that differ by at most a thousandth pass |
| Geometry.LayoutIsValid | tools/benchmark/graphical_multiplexer.py:182-213 | the rectangles pass the orientation validator exactly when no pane is empty, and then also the equal-ratio validator |
| Geometry.NarrowGridIsRefused | tools/benchmark/graphical_multiplexer.py:182-213 | four panes in one column of cells: there are rectangles, but the validator refuses them |
| Geometry.ValidGeometryMeans | tools/benchmark/graphical_multiplexer.py:182-213 | the first validator accepts exactly the panes of the topology in its order, none empty and, with all positions known and more than one pane, in the right places |
| Geometry.OrientedColumns | tools/benchmark/graphical_multiplexer.py:195-199 | two columns are in place exactly when the second starts further right at the same height |
| Geometry.OrientedGrid | tools/benchmark/graphical_multiplexer.py:200-213 | four panes are in place exactly when they form two columns that start at the same height with the second pane of each below the first; the lower panes need not be at the same height |
| Geometry.EqualColumns | tools/benchmark/graphical_multiplexer.py:307-316 | two nonempty columns are equal exactly when their widths are balanced and their heights are the same |
| Geometry.EqualGrid | tools/benchmark/graphical_multiplexer.py:317-340 | four nonempty panes are equal exactly when paired edges differ by at most one cell and the three ratios are balanced |
| Geometry.ArrangedIsValid | tools/benchmark/graphical_multiplexer.py:300-340 | four panes around a point pass both validators when both splits pass the ratio test and no pane is empty |
| Capture.PixelInRange | tools/foot-oracle/compare-final-buffers.py:107-109 | every visible pixel lies inside the raw bytes |
| Capture.SizesAreBounded | tools/foot-oracle/compare-final-buffers.py:51-76 | no size or padding passes its limit, and the limits can be reached |
| Picture.PixelShows | tools/foot-oracle/compare-final-buffers.py:107-109 | a capture that holds the rows of a picture one after the other, each filled up to the stride with any bytes, has at every position the pixel of the picture |
| Picture.ShowsOnePicture | tools/foot-oracle/compare-final-buffers.py:98-109 | every valid capture holds the rows of exactly one picture |
| Capture.PixelsPartition | tools/foot-oracle/compare-final-buffers.py:51-78 | every pixel is in the padding or in exactly one cell, and the quotients find that cell |
| Capture.ChannelDelta | tools/foot-oracle/compare-final-buffers.py:177-177 | the delta is the greatest difference of any of the four channels, attained by one of them, and zero exactly for equal pixels |
| Capture.GrownIsBox | tools/foot-oracle/compare-final-buffers.py:181-181 | growing the bounds by a pixel gives the tightest box of one pixel more |
| Capture.BoxIsUnique | tools/foot-oracle/compare-final-buffers.py:181-181 | a set of pixels has only one tightest box |
| BufferCompare.TallyUpdated | tools/foot-oracle/compare-final-buffers.py:179-190 | the five updates for a differing pixel keep count, maximum, bounds, cell counts and first cell exact for one pixel more |
| BufferCompare.PerCellStep | tools/foot-oracle/compare-final-buffers.py:184-188 | the cell counts stay exact when one pixel more is counted |
| BufferCompare.FirstCellStep | tools/foot-oracle/compare-final-buffers.py:189-190 | the first divergent cell stays that of the first in-grid mismatch in raster order |
| BufferCompare.CompareLoop | tools/foot-oracle/compare-final-buffers.py:166-191 | the nested loops give the exact number of mismatches, the greatest delta, the tightest bounds, the count of every cell, the first divergent cell in raster order, and the delta of every pixel |
| BufferCompare.InkClearances | tools/foot-oracle/compare-final-buffers.py:112-132 | each clearance is the number of columns or rows between its edge and the ink nearest to it, attained by some ink; none exactly without ink |
| BufferCompare.Compare | tools/foot-oracle/compare-final-buffers.py:142-214 | a report exists exactly for equal contracts, satisfies the whole specification with every clearance delta leading from the reference to the actual capture, and is exact exactly when both captures show the same picture |
| BufferCompare.ExactMeansEqual | tools/foot-oracle/compare-final-buffers.py:213-213 | exact holds exactly when all visible pixels are equal |
| ComparisonLaws.CountsAddUp | tools/foot-oracle/compare-final-buffers.py:166-191 | the counts of all cells and the mismatches in the padding add up to the mismatch count |
| ComparisonLaws.ReportIsUnique | tools/foot-oracle/compare-final-buffers.py:193-214 | the specification admits one report |
| ComparisonLaws.SwapNegatesClearances | tools/foot-oracle/compare-final-buffers.py:142-214 | the reports of swapped captures are exactly the reports with the same counts, bounds, cells and heatmap, the clearances exchanged and their deltas negated |
| ComparisonLaws.ViewDecides | tools/foot-oracle/compare-final-buffers.py:107-109 | captures of the same two pictures, whatever their strides and whatever bytes follow each row, get the same report, which is exact exactly when the pictures are equal |
| ProcessTree.Tree | tools/benchmark/metrics.py:140-153 | for every finite child graph, cycles and duplicates included, the worklist ends and lists each existing process reachable through existing ones exactly once, in nondecreasing distance |
| ProcessTree.FrontIsExact | tools/benchmark/metrics.py:147-151 | a process is taken from the worklist at its exact distance |
| ProcessTree.ScanIsComplete | tools/benchmark/metrics.py:145-153 | an empty worklist means that nothing reachable is missing |
| ProcessTree.Identities | tools/benchmark/headless_multiplexer.py:895-906 | identities are read for all processes or for none |
| ProcessTree.VerifyRoles | tools/benchmark/headless_multiplexer.py:860-892 | succeeds exactly when the workloads are descendants other than the server and everything can be identified; then server, helpers and workloads are disjoint and, with the server present, make up the tree |
| ProcessScan.Observer.SameProcess | tools/benchmark/headless_multiplexer.py:909-915 | true exactly when that incarnation is alive at the instant of the read |
| ProcessScan.Observer.AnyAlive | tools/benchmark/headless_multiplexer.py:920-920 | checks made one at a time: false means all are dead at the end, true that one was alive during the scan |
| ProcessScan.Observer.WaitGone | tools/benchmark/headless_multiplexer.py:918-924 | true means that every incarnation is dead and stays dead; false that the timeout has passed and that the last look, with no sleep after it, found one alive |
| ProcessScan.Observer.Remaining | tools/benchmark/headless_multiplexer.py:932-932 | every incarnation is looked at once, those found alive are kept in order, and whatever is dropped is dead for good |
| ProcessScan.Observer.TerminateExact | tools/benchmark/headless_multiplexer.py:927-946 | true means that every incarnation of the original input is dead for good, although it is filtered twice; false that both timeouts have passed and the last look found one alive. Each incarnation is looked at first, and exactly those alive then are sent a termination; if that is not enough, exactly those of them alive at a second look after the timeout are sent a kill, and whoever is alive after false was sent one. While no process id of the input changes hands every signal reaches its own incarnation or nobody |
| ProcessScan.OnTargetIffNeverInherited | tools/benchmark/headless_multiplexer.py:932-943 | every signal a call may send reaches its own incarnation or nobody exactly when no process id of the input is inherited after its holder was alive |
| ProcessScan.StrangerIsSignalled | tools/benchmark/headless_multiplexer.py:933-937 | a process id reused between the filter and the signal: the signal reaches another incarnation |
| CatchupPlan.AcceptsIffCovers | tools/benchmark/graphical_catchup.py:199-232 | batches of ten distinct cells and a total length amount to: nonnegative run counts, and every (phase, iteration, cell) exactly once and nothing else |
| CatchupPlan.ValidatePhase | tools/benchmark/graphical_catchup.py:206-218 | the loop accepts exactly when every iteration of the phase is a complete batch |
| CatchupPlan.ValidateNumbers | tools/benchmark/graphical_catchup.py:219-228 | the loop accepts exactly when every entry carries its position and the matching case identity |
| CatchupPlan.ValidatePlan | tools/benchmark/graphical_catchup.py:185-232 | the validator accepts exactly the documents whose header has the literal schema, the ten cells in order, 4096 rows, 2000 lines and the digest of the plan, with numbered entries and exact coverage |
| CatchupPlan.BatchesTakeRoom | tools/benchmark/graphical_catchup.py:229-232 | complete batches fill the schedule exactly when nothing is outside them |
| CatchupPlan.BuildPhase | tools/benchmark/graphical_catchup.py:155-168 | the loops of one phase continue the schedule batch by batch with a running index |
| CatchupPlan.BuiltCovers | tools/benchmark/graphical_catchup.py:154-168 | what the loops build covers every case exactly once, whatever permutations the shuffles give |
| CatchupPlan.PlanDocument | tools/benchmark/graphical_catchup.py:142-182 | a plan is built exactly for nonnegative warmups and at least one measured run, and the validator accepts it; case k is entry k mod 10 of shuffle k div 10, warm-up iterations first |
| CatchupPlan.IndexSelectsOne | tools/benchmark/graphical_catchup.py:241-248 | in an accepted plan exactly the in-range indexes select one entry |
| CatchupPlan.CaseIdsAreUnique | tools/benchmark/graphical_catchup.py:219-228 | no two entries of an accepted plan share a case identity |
| CaseIdentity.CaseIdSpells | tools/benchmark/graphical_catchup.py:164-164 | an identity is the phase, the iteration in at least two and the index in at least four decimal digits, zeros in front only up to that width, and the cell, with dashes between |
| CaseIdentity.CaseIdReads | tools/benchmark/graphical_catchup.py:164-164 | phase, iteration, index and cell can be read off an identity |
| CaseIdentity.NegativeReads | tools/benchmark/graphical_catchup.py:164-164 | a negative number takes one of the places for its sign |
| CapturePhase.CheckOrdered | tools/benchmark/graphical_catchup.py:108-139 | the local checks accept exactly when the flattened timeline is nondecreasing, sequence numbers equal positions, and the marker is found at the found sequence only |
| CapturePhase.MarkersDecide | tools/benchmark/graphical_catchup.py:137-137 | comparing the collected list with one number says that the marker is there and nowhere else |
| CapturePhase.CaptureAttempts | tools/benchmark/run-graphical-catchup-case.py:325-364 | the loop ends at the first pass that sees the marker, every test up to it before the deadline, and returns the attempts so far with the times of the clock and the longest time from a start to its decoded picture; or at the first test that is past the deadline |
| CapturePhase.EndIsDetermined | tools/benchmark/run-graphical-catchup-case.py:325-364 | where the loop ends and what it returns depend on the clock and the pictures alone |
| CapturePhase.TakenIsOrdered | tools/benchmark/run-graphical-catchup-case.py:325-364 | such a series is accepted by the order check once trigger, receipt and first start are in order |
| Debounce.SettledSnapshots | tools/benchmark/run-graphical-catchup-case.py:142-170 | returns at the first poll that ends a stable span, if the deadline is not reached before; a timeout means that no earlier poll had settled |
| Debounce.EndIsDetermined | tools/benchmark/run-graphical-catchup-case.py:154-170 | where the loop ends, whether it succeeds and what it returns depend on the polls alone |
| Debounce.AllAdvanced | tools/benchmark/run-graphical-catchup-case.py:158-161 | the panes have advanced exactly when every revision is above its minimum |
| Debounce.SettledFromStart | tools/benchmark/run-graphical-catchup-case.py:156-166 | remembering only when the signature last changed decides whether any span up to now is stable |
| Debounce.SettledMeansQuiet | tools/benchmark/run-graphical-catchup-case.py:156-166 | a poll has settled exactly when every poll over a span of the required length saw the same incarnations and revisions, all above their minimum |
| SubscribeLoop.Subscribe | tools/automation/splinterm-dojo-picker.py:406-479 | the passes of the loop with deadline, diagnostics bound, buffer bound, records and exit status end as the step function over sessions says, error by error |
| SubscribeLoop.WithStatus | tools/automation/splinterm-dojo-picker.py:472-478 | only a stream that ended early is told by the exit status, and not by 0 or the terminating signal; 3, 4, 5, 6 and 70 are passed on and everything else is 4 |
| SubscribeLoop.SubscribeReads | tools/automation/splinterm-dojo-picker.py:406-479 | for every sequence of passes the outcome is that of reading the output alone, an early end told by the exit status, or the deadline or the diagnostics ended the loop; a success is always that of reading the output alone |
| SubscribeLoop.QuietSubscribeReads | tools/automation/splinterm-dojo-picker.py:406-479 | in time and with at most 64 KiB of diagnostics the outcome is exactly that of reading the output alone |
| SubscribeLoop.DeadlineEnds | tools/automation/splinterm-dojo-picker.py:415-418 | whenever the deadline is over in a pass that finds the output still going and few diagnostics, the result is the deadline error |
| SubscribeLoop.DiagnosticsEnd | tools/automation/splinterm-dojo-picker.py:427-431 | the pass in which the diagnostics exceed 64 KiB ends the loop with that error, even when its output would have ended it well |
| RecordReader.DrainLines | tools/automation/splinterm-dojo-picker.py:437-461 | the inner loop takes records off the buffer and ends as the recursive draining does, with what is left over |
| RecordReader.SplitWritten | tools/automation/splinterm-dojo-picker.py:437-439 | records without a newline, each followed by one, are exactly what a stream of them is split into |
| RecordReader.OutcomeMeans | tools/automation/splinterm-dojo-picker.py:437-479 | the outcome case by case: when every record goes on, a partial record or an early end, with or without an event; otherwise the error, the resync or the exit of the first record that does not |
| RecordReader.DrainFolds | tools/automation/splinterm-dojo-picker.py:437-461 | draining a buffer is folding the check over its newline-separated records |
| RecordReader.DrainAppend | tools/automation/splinterm-dojo-picker.py:433-461 | draining a prefix and then the rest is draining the whole |
| RecordReader.FeedAllDrains | tools/automation/splinterm-dojo-picker.py:424-461 | while records have room, any sequence of reads stops as draining all bytes at once would |
| RecordReader.ChunkingIsIrrelevant | tools/automation/splinterm-dojo-picker.py:406-479 | when nothing follows the ending record and records have room, every way of splitting the reads gives the outcome of the fold |
| RecordReader.ShortRecordsHaveRoom | tools/automation/splinterm-dojo-picker.py:433-436 | records of up to 8 MiB less 16 KiB always have room |
| ReadSplits.StraddlingFails | tools/automation/splinterm-dojo-picker.py:437-464 | a byte read together with the end of the last record turns success into a partial-record failure |
| ReadSplits.Overflowing | tools/automation/splinterm-dojo-picker.py:433-436 | where a record has no room, some way of splitting the reads exceeds the bound |
| ReadSplits.EverySplitFoldsIff | tools/automation/splinterm-dojo-picker.py:406-479 | for every stream and every check of a record: all ways of splitting the reads give the outcome of the fold exactly when nothing follows the ending record and every record that is looked at has room |
| EventStream.TrailingByteDepends | tools/automation/splinterm-dojo-picker.py:453-464 | for every subscription and every event that ends it, with one more byte: two ways of reading the same stream, a success and a partial record |
| EventStream.OversizedEventDepends | tools/automation/splinterm-dojo-picker.py:433-436 | for every subscription and every event one byte below the bound, with the beginning of the next: two ways of reading the same stream, a partial record and a record too long |
| EventStream.SuchEventsExist | tools/automation/splinterm-dojo-picker.py:268-341 | every nonempty text is such an event for some subscription |
| EventStream.CheckRecord | tools/automation/splinterm-dojo-picker.py:268-341 | a record is accepted exactly when it decodes as a well-formed event of the terminal subscription with the expected number and the subscribed incarnation that does not revoke the access, and then as its kind; every other record is refused for its first fault, each fault characterised |
| EventStream.FoldSuccess | tools/automation/splinterm-dojo-picker.py:268-291 | a fold that ends has seen consecutive events of the subscribed incarnation, snapshots and updates before the last |
| EventStream.NumberedFolds | tools/automation/splinterm-dojo-picker.py:437-461 | conversely, whenever the records begin with consecutive events of the incarnation, snapshots and updates and then a resync or an exit, the fold ends exactly there with that kind |
| RecordReader.SuccessDrains | tools/automation/splinterm-dojo-picker.py:415-461 | whatever follows the ending record and however large records are, a success is the one that draining the whole stream finds |
| EventStream.SuccessMeansNumberedEvents | tools/automation/splinterm-dojo-picker.py:406-479 | for every sequence of reads success means events numbered 1 to k with one splint and one incarnation, snapshots and updates before the last, and the value tells a resync from an exit |
| EventStream.NumberedEventsSucceed | tools/automation/splinterm-dojo-picker.py:406-479 | every way of reading numbered events of the incarnation succeeds when the last is a resync or an exit, nothing follows it and the records have room; the value tells which |
| EventStream.SucceedsIffNumbered | tools/automation/splinterm-dojo-picker.py:406-479 | with room and nothing after the end, a value is returned exactly when the records begin with such events |
| OrderStatistics.SortedIsSorted | tools/benchmark/summary.py:22-22 | sorting is an ascending permutation |
| OrderStatistics.AscendingIsUnique | tools/benchmark/summary.py:22-22 | there is only one ascending arrangement of a bag of numbers |
| OrderStatistics.OrderIsIrrelevant | tools/benchmark/summary.py:21-34 | the summary depends on the bag of values, not on their order |
| OrderStatistics.StatisticsAreOrdered | tools/benchmark/summary.py:21-34 | minimum, median, percentile and maximum are in order, except exactly that two different values put the percentile below the median; the deviation is not negative |
| OrderStatistics.PairIsOutOfOrder | tools/benchmark/summary.py:17-17 | for the sample 1, 2 the 95th percentile lies below the median |
| OrderStatistics.ExtremesBound | tools/benchmark/summary.py:28-32 | minimum, percentile and maximum are values of the sample, and the extremes bound all of it |
| OrderStatistics.PercentileIsRank | tools/benchmark/summary.py:11-18 | the percentile has the nearest rank: the share of values strictly below it does not exceed the percentage of steps, the share at or below it does |
| OrderStatistics.SummaryIsExact | tools/benchmark/summary.py:21-34 | the summary is exactly the one with the least and the greatest value, the value with 95 hundredths of the steps in front of it, the middle of the values and the middle of their distances from it, each told by counting; an empty sample is the only one without |
| OrderStatistics.HalfWithinDeviation | tools/benchmark/summary.py:25-33 | at least half of the values lie within the median absolute deviation of the median |
| OrderStatistics.SummaryMirrors | tools/benchmark/summary.py:21-34 | negating all values negates the median, exchanges the extremes and keeps the deviation |
| SampleSummary.AddSample | tools/benchmark/summary.py:45-47 | a valid sample adds each of its numbers to the list of its metric and touches no other list; booleans are no numbers |
| SampleSummary.Reading | tools/benchmark/summary.py:45-47 | a sample adds a number to a group exactly when it is valid, has the key of the group and that number for its metric |
| SampleSummary.GroupSamples | tools/benchmark/summary.py:38-47 | every list holds exactly the readings of its group in sample order, and every count is the number of invalid samples of its key |
| SampleSummary.SummarizeSamples | tools/benchmark/summary.py:37-74 | the rows are exactly one per group and one per key that has only invalid samples, in the order of their names, with the statistics and the invalid count of each |
| SampleSummary.GroupsCompareByField | tools/benchmark/summary.py:50-50 | groups come in the order of terminal, scenario, boundary and metric, the first field that differs deciding |
| SampleSummary.PrecedesMeans | tools/benchmark/summary.py:50-50 | one name comes before another exactly when it ends, or has the smaller character, where the two first differ |
| SampleSummary.ReportIgnoresOrder | tools/benchmark/summary.py:37-74 | samples in any order give the same list of rows |
| SampleSummary.NoReadingIsLost | tools/benchmark/summary.py:45-62 | every valid number has a row that counts all samples with that metric and whose extremes bound it |
| SampleSummary.InvalidIsReported | tools/benchmark/summary.py:42-73 | every key with invalid samples has a row, and each row of a key carries the exact number |

## Left out

- The Rust crates (daemon, terminal grid, parser, automation client) are not part of this model.
- I/O is environment: systemd, SSH, the sandbox, subprocesses, procfs reads, screenshots and compositor calls appear as steps or inputs.
- `validate_host`, `validate_task` and the other text and schema checks: only what the command plan needs of a validated task is modelled.
- `doctor`, prompts, logs and the client side of `remote.py`; the `detail`, `service` and time fields of a receipt; size limits and blank reports in the result action.
- A status request that raises because the service manager does not answer: it changes nothing.
- CheckRun.ChecksFile.Execute: begins after the preflight and the creation of the three directories; log digests in a record are not modelled.
- `zellij_layout` is a function on values: its local line lists are not modelled as updated objects.
- Geometry.LayoutIsValid: the equal-ratio validator looks panes up by position in the topology's order, not by name, because the first validator has fixed that order.
- `load_capture`: reading and type-checking the metadata; a capture is a value that satisfies its size and geometry rules, and the fields compared only for equality are one list of labels.
- The crops and image files `compare` writes.
- ProcessTree.VerifyRoles: the tree and the start times are one snapshot; processes that change between the reads are the subject of `ProcessScan` only.
- ProcessScan.Observer.TerminateExact: what a signal does to the table is left to the world, which may change it in any way; a `PermissionError` from `kill` is not modelled.
- ProcessScan.Observer.WaitGone: identities must have been read from the table before, which is how callers obtain them.
- `snapshot_processes` and the memory and cgroup snapshots of `metrics.py`: sums over a set of processes.
- SubscribeLoop.Subscribe: the selector, the clock and the ending of the process are inputs: what is ready in each pass, whether the deadline is over, and the exit status.
- EventStream.SuccessMeansNumberedEvents: the checks on the payload of each kind are one flag of the decoded event, and JSON decoding is a parameter.
- `correlated_trace`, `wait_for_revision_commit` and the report semantics of the catch-up case: long field checks without a law of their own.
- Floating point: ratios and statistics are over exact numbers, with Python's rounding to even written out where `round` is called.
- The matrix, demo, sign-off, packaging and theme scripts and the multiplexer controllers: orchestration with easy members only.
