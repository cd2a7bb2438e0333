/** What holds of a job over whole runs. */
module JobTheorems {
  import opened Basics
  import opened Wrappers
  import opened CargoChecks
  import opened CheckRun
  import opened JobReceipt
  import opened JobMachine

  ghost predicate Inv(s: State) {
    DispatchedOnce(s) && StartedOnce(s) && CancelSafe(s) && Truthful(s)
  }

  lemma InvStep(s: State, e: Event)
    requires Inv(s) && Enabled(s, e)
    ensures Inv(Next(s, e))
  {
    var t := Next(s, e);
    DispatchedOnceStep(s, e);
    StartedOnceStep(s, e);
    CancelSafeStep(s, e);
    forall r | r in t.runners
      ensures RunnerTruthful(t, t.runners[r])
    {
      if At(t, r) {
        RunnerTruthfulStep(s, e, r);
      }
    }
    if t.receipt.Some? {
      ReceiptTruthfulStep(s, e);
    }
  }

  lemma {:induction false} InvRun(s: State, es: seq<Event>, t: State)
    requires Inv(s) && Runs(s, es, t)
    ensures Inv(t)
    decreases |es|
  {
    if es != [] {
      InvStep(s, es[0]);
      InvRun(Next(s, es[0]), es[1..], t);
    }
  }

  lemma InvReachable(s: State)
    requires Reachable(s)
    ensures Inv(s)
  {
    var es :| Runs(INITIAL, es, s);
    InvRun(INITIAL, es, s);
  }

  // ----- At most once ----------------------------------------------------------------------

  /** How often a run invokes the service manager. */
  function DispatchesIn(es: seq<Event>): nat {
    if es == [] then 0 else (if es[0].Dispatch? then 1 else 0) + DispatchesIn(es[1..])
  }

  /** How often a run writes `running` at a runner's gate. */
  function GatePassesIn(s: State, es: seq<Event>): nat
    decreases |es|
  {
    if es == [] || !Enabled(s, es[0]) then 0
    else
      (if es[0].RunnerGate? && GateOpen(s.receipt.value) then 1 else 0) + GatePassesIn(Next(s, es[0]), es[1..])
  }

  lemma {:induction false} CountersCount(s: State, es: seq<Event>, t: State)
    requires Runs(s, es, t)
    ensures t.dispatches == s.dispatches + DispatchesIn(es)
    ensures t.starts == s.starts + GatePassesIn(s, es)
    decreases |es|
  {
    if es != [] {
      CountersCount(Next(s, es[0]), es[1..], t);
    }
  }

  /** Whatever is submitted, polled, cancelled, restarted or killed, in any order and number. */
  lemma AtMostOnce(es: seq<Event>, s: State)
    requires Runs(INITIAL, es, s)
    ensures DispatchesIn(es) <= 1 && GatePassesIn(INITIAL, es) <= 1
    ensures forall q, r :: At(s, q) && At(s, r) ==> q == r
  {
    CountersCount(INITIAL, es, s);
    InvRun(INITIAL, es, s);
  }

  /** The job answers its own request with the receipt on record and rejects every other one. */
  lemma ResubmissionIsIdempotent(s: State, request: Request)
    requires Reachable(s) && Enabled(s, Resubmit(request)) && s.receipt.Some?
    ensures Next(s, Resubmit(request)) == s
    ensures Resubmission(s.receipt, request).Success? <==> s.request == Some(request)
    ensures s.request == Some(request) ==> Resubmission(s.receipt, request) == Success(s.receipt.value)
  {
    InvReachable(s);
  }

  // ----- After submit has released the job -------------------------------------------------

  /** The edges a receipt can take once its submitter is gone. `cancelled` may follow directly when
      the cancellation began before that. */
  const SUCCESSORS: map<JobState, set<JobState>> := map[
    Claimed := {Cancelling, Interrupted},
    Queued := {Running, Cancelling, Interrupted, Cancelled},
    DispatchUnknown := {Running, Cancelling, Interrupted, Cancelled},
    Running := {Completed, Failed, Cancelling, Interrupted, Cancelled},
    Cancelling := {Interrupted, Cancelled},
    Interrupted := {Cancelled},
    Completed := {},
    Failed := {},
    Cancelled := {}
  ]

  predicate ReleasedWith(s: State) {
    s.submitter.Released? && s.receipt.Some?
  }

  /** No step leaves the lifecycle graph, and a terminal receipt changes in its state only. */
  lemma LifecycleStep(s: State, e: Event)
    requires Inv(s) && ReleasedWith(s) && Enabled(s, e)
    ensures var t := Next(s, e);
      && ReleasedWith(t)
      && (t.receipt.value.state == s.receipt.value.state
          || t.receipt.value.state in SUCCESSORS[s.receipt.value.state])
      && (Terminal(s.receipt.value) ==>
            t.receipt.value == s.receipt.value.(state := t.receipt.value.state))
  {
    var t := Next(s, e);
    if e.RunnerFinishes? || e.RunnerFails? || e.RunnerRecheck? {
      assert At(s, e.r);
      GatedMeansRunning(s, e.r);
    }
  }

  lemma GatedMeansRunning(s: State, r: nat)
    requires Inv(s) && ReleasedWith(s) && At(s, r)
    ensures s.receipt.value.state == Running || s.receipt.value.state == Cancelling
  {
  }

  /** The edges compose: a final state is final, and `interrupted` can only be reconciled. */
  predicate Follows(a: JobState, b: JobState) {
    || a == b
    || (a !in {Completed, Failed, Cancelled, Interrupted, Cancelling})
    || (a == Cancelling && b in {Interrupted, Cancelled})
    || (a == Interrupted && b == Cancelled)
  }

  lemma {:induction false} ReleasedRun(s: State, es: seq<Event>, t: State)
    requires Inv(s) && ReleasedWith(s) && Runs(s, es, t)
    ensures ReleasedWith(t) && Follows(s.receipt.value.state, t.receipt.value.state)
    ensures Terminal(s.receipt.value) ==> t.receipt.value == s.receipt.value.(state := t.receipt.value.state)
    decreases |es|
  {
    if es != [] {
      LifecycleStep(s, es[0]);
      InvStep(s, es[0]);
      ReleasedRun(Next(s, es[0]), es[1..], t);
    }
  }

  /** Every later receipt is this one, except that `interrupted` may be reconciled to `cancelled`. */
  ghost predicate StaysFinal(s: State)
    requires s.receipt.Some?
  {
    forall es, t :: Runs(s, es, t) ==>
      && t.receipt.Some?
      && (t.receipt == s.receipt
          || (s.receipt.value.state == Interrupted && t.receipt.value == s.receipt.value.(state := Cancelled)))
  }

  /** The recorded wish to cancel is never followed by anything but its own outcomes. */
  ghost predicate IntentKept(s: State) {
    forall es, t :: Runs(s, es, t) ==>
      t.receipt.Some? && t.receipt.value.state in {Cancelling, Interrupted, Cancelled}
  }

  /** While the submitter is still there, one continuation puts `queued` over whatever is recorded. */
  lemma SubmitterOverwrites(s: State) returns (es: seq<Event>, t: State)
    requires Inv(s) && s.receipt.Some? && !s.submitter.Released?
    ensures Runs(s, es, t) && ReleasedWith(t) && t.receipt.value.state == Queued
    ensures t.runners == s.runners && t.unit == if s.submitter.Dispatching? then s.unit else StartSent
    ensures t.request == s.request && t.report == s.report
    decreases if s.submitter.ClaimWritten? then 2 else if s.submitter.Preparing? then 1 else 0
  {
    var e := if s.submitter.ClaimWritten? then TakeLock
             else if s.submitter.Preparing? then Dispatch else FinishSubmit(true);
    var next := Next(s, e);
    InvStep(s, e);
    if s.submitter.Dispatching? {
      es, t := [], next;
    } else {
      es, t := SubmitterOverwrites(next);
    }
    Prepend(s, e, es, t);
    es := [e] + es;
  }

  /** From a released, queued job whose unit is about to start, a runner can get through the gate. */
  lemma QueuedCanRun(s: State) returns (es: seq<Event>, t: State)
    requires ReleasedWith(s) && s.receipt.value.state == Queued && s.unit == StartSent && 0 !in s.runners
    ensures Runs(s, es, t) && ReleasedWith(t) && t.receipt.value.state == Running
    ensures t.request == s.request && t.report == s.report
    ensures 0 in t.runners && t.runners[0] == if IsValidation(s) then Working else Reporting(None)
  {
    var a := Next(s, UnitStarts);
    var b := Next(a, RunnerStarts(0));
    t := Next(b, RunnerGate(0));
    Prepend(b, RunnerGate(0), [], t);
    Prepend(a, RunnerStarts(0), [RunnerGate(0)] + [], t);
    es := [RunnerStarts(0)] + ([RunnerGate(0)] + []);
    Prepend(s, UnitStarts, es, t);
    es := [UnitStarts] + es;
  }

  const SETTLED: set<JobState> := {Completed, Failed, Cancelled}

  /** A terminal receipt is final exactly when the submission that created the job is over. */
  lemma TerminalIsFinalIffReleased(s: State)
    requires Reachable(s) && s.receipt.Some? && Terminal(s.receipt.value)
    ensures StaysFinal(s) <==> s.submitter.Released?
  {
    InvReachable(s);
    if s.submitter.Released? {
      forall es, t | Runs(s, es, t)
        ensures t.receipt.Some?
        ensures t.receipt == s.receipt
                || (s.receipt.value.state == Interrupted && t.receipt.value == s.receipt.value.(state := Cancelled))
      {
        ReleasedRun(s, es, t);
      }
    } else {
      var es, t := SubmitterOverwrites(s);
      assert Runs(s, es, t);
    }
  }

  /** A recorded cancellation is never erased exactly when that submission is over. */
  lemma CancelIntentKeptIffReleased(s: State)
    requires Reachable(s) && s.receipt.Some? && s.receipt.value.state == Cancelling
    ensures IntentKept(s) <==> s.submitter.Released?
  {
    InvReachable(s);
    if s.submitter.Released? {
      forall es, t | Runs(s, es, t)
        ensures t.receipt.Some? && t.receipt.value.state in {Cancelling, Interrupted, Cancelled}
      {
        ReleasedRun(s, es, t);
      }
    } else {
      var es, t := SubmitterOverwrites(s);
      assert Runs(s, es, t);
    }
  }

  /** No runner is at work behind a terminal receipt, whatever the run. */
  lemma TerminalMeansNoRunner(s: State)
    requires Reachable(s) && s.receipt.Some? && Terminal(s.receipt.value)
    ensures NoGatedRunner(s)
  {
    InvReachable(s);
  }

  /** What reads completed, failed or cancelled is so for good, whoever reads it and whenever. */
  lemma SettledIsFinal(s: State)
    requires Reachable(s) && s.receipt.Some? && s.receipt.value.state in SETTLED
    ensures s.submitter.Released? && StaysFinal(s) && NoGatedRunner(s)
  {
    InvReachable(s);
    TerminalIsFinalIffReleased(s);
  }

  // ----- The window before the lock --------------------------------------------------------

  lemma Prepend(s: State, e: Event, es: seq<Event>, t: State)
    requires Enabled(s, e) && Runs(Next(s, e), es, t)
    ensures Runs(s, [e] + es, t)
  {
    assert ([e] + es)[1..] == es;
  }

  /** The state between writing `claimed` and taking the lock. */
  function InWindow(request: Request): State {
    INITIAL.(submitter := ClaimWritten, request := Some(request), receipt := Some(Claim(request)))
  }

  lemma WindowIsReachable(request: Request)
    ensures Reachable(InWindow(request))
  {
    var made := Next(INITIAL, Submit(request));
    var written := Next(made, WriteRequest);
    var window := Next(written, WriteClaim);
    Prepend(written, WriteClaim, [], window);
    Prepend(made, WriteRequest, [WriteClaim], window);
    Prepend(INITIAL, Submit(request), [WriteRequest] + [WriteClaim], window);
  }

  /** A cancellation accepted in the window is lost: the job runs. */
  lemma WindowLosesCancellation(request: Request) returns (s: State, all: seq<Event>, t: State)
    ensures Reachable(s) && s.receipt.Some? && s.receipt.value.state == Cancelling
    ensures Runs(s, all, t) && t.receipt.Some? && t.receipt.value.state == Running
  {
    var window := InWindow(request);
    WindowIsReachable(request);
    s := Next(window, CancelBegins(0));
    StepReachable(window, CancelBegins(0));
    InvReachable(s);
    var es, queued := SubmitterOverwrites(s);
    var more, running := QueuedCanRun(queued);
    RunsCompose(s, es, queued, more, running);
    all, t := es + more, running;
  }

  /** A poll in the window records an interruption that does not last. */
  lemma WindowLosesInterruption(request: Request) returns (s: State)
    ensures Reachable(s) && s.receipt.Some? && s.receipt.value.state == Interrupted && !StaysFinal(s)
  {
    var window := InWindow(request);
    WindowIsReachable(request);
    s := Next(window, Poll);
    StepReachable(window, Poll);
    TerminalIsFinalIffReleased(s);
  }

  lemma StepReachable(s: State, e: Event)
    requires Reachable(s) && Enabled(s, e)
    ensures Reachable(Next(s, e))
  {
    var es :| Runs(INITIAL, es, s);
    Prepend(s, e, [], Next(s, e));
    RunsCompose(INITIAL, es, s, [e] + [], Next(s, e));
  }

  // ----- Truthful receipts -----------------------------------------------------------------

  /** `completed` is backed by the stored report and, for a validation, by every planned check. */
  lemma CompletedIsTruthful(s: State)
    requires Reachable(s) && s.receipt.Some? && s.receipt.value.state == Completed
    ensures s.report.Some? && s.receipt.value.reportDigest == Some(Sha256(s.report.value))
    ensures ReadReport(s.receipt.value, s.report) == Success(s.report)
    ensures s.request.Some? && s.receipt.value.digest == Sha256(s.request.value)
    ensures s.request.value.task.Validation? ==>
      && s.receipt.value.validation.Some?
      && EveryCheckPassed(Plan(s.request.value.task.commands), s.receipt.value.validation.value)
  {
    InvReachable(s);
  }

  /** A report that is on record can always be read back, in every state of the job. */
  lemma RecordedReportIsReadable(s: State)
    requires Reachable(s) && s.receipt.Some?
    ensures ReadReport(s.receipt.value, s.report).Success?
  {
    InvReachable(s);
  }

  // ----- The verdict -----------------------------------------------------------------------------

  /** What entitles a job to be completed: an inspection needs no checks, a validation all of its own. */
  predicate Earned(task: Task, validation: Option<CheckReceipt>) {
    match task
    case Inspection(_) => true
    case Validation(_, commands) => validation.Some? && EveryCheckPassed(Plan(commands), validation.value)
  }

  /** A runner that gets to its verdict records it, with the digest of the stored report: completed when the
      job has earned it and failed when not. A recorded cancellation is left alone. */
  lemma VerdictIsEarned(s: State, r: nat)
    requires Reachable(s) && Enabled(s, RunnerFinishes(r))
    ensures s.request.Some? && s.report.Some? && Next(s, RunnerFinishes(r)).receipt.Some?
    ensures var before, after := s.receipt.value, Next(s, RunnerFinishes(r)).receipt.value;
      && before.state in {Running, Cancelling}
      && (before.state == Cancelling ==> after == before)
      && (before.state == Running ==>
            && after.state == (if Earned(s.request.value.task, before.validation) then Completed else Failed)
            && after.reportDigest == Some(Sha256(s.report.value))
            && after.digest == before.digest && after.validation == before.validation)
  {
    InvReachable(s);
    GatedMeansRunning(s, r);
    var checks := s.runners[r].checks;
    if checks.Some? {
      var plan := PlanOf(s);
      var codes :| Complete(plan, codes) && checks.value == FinalReceipt(plan, codes);
      PassedMeansEveryCheckPassed(plan, codes);
    }
  }

  /** The report is delivered exactly when it is stored and its digest is on record, none is promised
      exactly when the job is not completed and has none on record, and everything else is an error. */
  lemma ReportIsDelivered(r: Receipt, stored: Option<string>, text: string)
    ensures ReadReport(r, stored) == Success(Some(text)) <==>
            stored == Some(text) && r.reportDigest == Some(Sha256(text))
    ensures ReadReport(r, stored) == Success(None) <==> r.state != Completed && r.reportDigest == None
  {
  }

  /** A runner with its checks behind it stores its report and completes the job. */
  lemma ReportingCompletes(s: State, text: string) returns (t: State)
    requires Reachable(s) && ReleasedWith(s) && s.receipt.value.state == Running && s.report.None?
    requires 0 in s.runners && s.runners[0].Reporting?
    requires s.runners[0].checks.Some? ==> s.runners[0].checks.value.state == CheckPassed
    ensures Reachable(t) && t.receipt.Some? && t.receipt.value.state == Completed
    ensures t.request == s.request && t.report == Some(text)
  {
    var started := Next(s, RunnerOpensReport(0));
    StepReachable(s, RunnerOpensReport(0));
    var written := Next(started, RunnerWritesReport(0, text));
    StepReachable(started, RunnerWritesReport(0, text));
    t := Next(written, RunnerFinishes(0));
    StepReachable(written, RunnerFinishes(0));
  }

  /** Every task can be completed with any report: an inspection, and a validation when its checks pass. */
  lemma EveryTaskCanBeCompleted(request: Request, text: string) returns (s: State)
    ensures Reachable(s) && s.request == Some(request) && s.report == Some(text)
    ensures s.receipt.Some? && s.receipt.value.state == Completed
  {
    var window := InWindow(request);
    WindowIsReachable(request);
    InvReachable(window);
    var es, queued := SubmitterOverwrites(window);
    var more, running := QueuedCanRun(queued);
    RunsCompose(window, es, queued, more, running);
    RunIsReachable(window, es + more, running);
    if IsValidation(running) {
      var plan := PlanOf(running);
      var zeros := seq(|plan|, i => 0);
      FinalAfterAll(plan);
      StepReachable(running, RunnerRecheck(0, zeros));
      s := ReportingCompletes(Next(running, RunnerRecheck(0, zeros)), text);
    } else {
      s := ReportingCompletes(running, text);
    }
  }

  lemma RunIsReachable(s: State, es: seq<Event>, t: State)
    requires Reachable(s) && Runs(s, es, t)
    ensures Reachable(t)
  {
    var before :| Runs(INITIAL, before, s);
    RunsCompose(INITIAL, before, s, es, t);
  }

  /** Every job that is not over can be cancelled while its unit is there to be stopped. */
  lemma LiveCanBeCancelled(s: State, c: nat) returns (t: State)
    requires Reachable(s) && ReleasedWith(s) && !Terminal(s.receipt.value)
    requires (s.unit == Active || s.unit == Ended) && c !in s.cancellers
    ensures Reachable(t) && t.receipt == Some(s.receipt.value.(state := Cancelled)) && t.runners == map[]
  {
    var asked := Next(s, CancelBegins(c));
    StepReachable(s, CancelBegins(c));
    t := CancelGoesThrough(asked, c);
  }

  lemma CancelGoesThrough(s: State, c: nat) returns (t: State)
    requires Reachable(s) && ReleasedWith(s) && s.receipt.value.state == Cancelling
    requires (s.unit == Active || s.unit == Ended) && c in s.cancellers && s.cancellers[c] == Stopping
    ensures Reachable(t) && t.receipt == Some(s.receipt.value.(state := Cancelled)) && t.runners == map[]
  {
    var stopped := Next(s, CancelStops(c, true));
    StepReachable(s, CancelStops(c, true));
    t := Next(stopped, CancelFinishes(c));
    StepReachable(stopped, CancelFinishes(c));
  }

  // ----- What a returning cancel promises ----------------------------------------------------

  /** Every cancel that returns leaves the job settled for good and without a runner, even one that began
      in the window before the lock. */
  lemma CancelReturnsFinal(s: State, c: nat)
    requires Reachable(s) && Enabled(s, CancelFinishes(c))
    ensures var t := Next(s, CancelFinishes(c));
      && t.submitter.Released? && t.receipt.Some? && t.receipt.value.state in SETTLED
      && NoGatedRunner(t) && StaysFinal(t)
  {
    StepReachable(s, CancelFinishes(c));
    SettledIsFinal(Next(s, CancelFinishes(c)));
  }
}
