/** The job directory on disk: each critical section under `.lock` is a step of the protocol. */
module JobStore {
  import opened Basics
  import opened Wrappers
  import opened CheckRun
  import opened JobReceipt
  import opened JobMachine
  import opened JobTheorems

  lemma InitialIsReachable()
    ensures Reachable(INITIAL)
  {
    assert Runs(INITIAL, [], INITIAL);
  }

  /** A runner past the gate has no submission beside it, and its job runs or is being cancelled. */
  lemma GatedIsReleased(s: State, r: nat)
    requires Reachable(s) && At(s, r)
    ensures ReleasedWith(s) && (s.receipt.value.state == Running || s.receipt.value.state == Cancelling)
  {
    InvReachable(s);
    GatedMeansRunning(s, r);
  }

  lemma LastRunnerLeaves(s: State, t: State, r: nat)
    requires Reachable(s) && At(s, r) && t.runners == s.runners - {r}
    ensures NoGatedRunner(t)
  {
    InvReachable(s);
    assert forall q :: At(t, q) ==> At(s, q) && q != r;
  }

  /** `status.json` and, beside it, the state of all actors of the job. */
  class JobDirectory {
    var status: Option<Receipt>
    ghost var machine: State

    ghost predicate Valid()
      reads this
    {
      Reachable(machine) && status == machine.receipt
    }

    constructor ()
      ensures Valid() && machine == INITIAL
    {
      status := None;
      machine := INITIAL;
      InitialIsReachable();
    }

    /** Other actors take any steps; `found` is what they leave in `status.json`. */
    method Others(ghost during: seq<Event>, ghost after: State, found: Option<Receipt>)
      requires Valid() && Runs(machine, during, after) && found == after.receipt
      modifies this
      ensures Valid() && machine == after && status == found
    {
      RunIsReachable(machine, during, after);
      status := found;
      machine := after;
    }

    method Update(state: JobState)
      requires status.Some?
      modifies `status
      ensures status == Some(old(status).value.(state := state))
    {
      status := Some(status.value.(state := state));
    }

    /** The submitter's first write: from here on every other submission finds this request. */
    method WriteClaim(request: Request)
      requires Valid() && Enabled(machine, Event.WriteClaim) && machine.request == Some(request)
      modifies this
      ensures Valid() && machine == Next(old(machine), Event.WriteClaim)
      ensures status == Some(Receipt(Sha256(request), Claimed, None, None)) && machine.dispatches == 0
    {
      StepReachable(machine, Event.WriteClaim);
      InvReachable(machine);
      status := Some(Receipt(Sha256(request), Claimed, None, None));
      machine := Next(machine, Event.WriteClaim);
    }

    /** The preflight failed: the job ends without ever having been dispatched. */
    method Refuse() returns (current: Receipt)
      requires Valid() && Enabled(machine, Event.Refuse)
      modifies this
      ensures Valid() && machine == Next(old(machine), Event.Refuse) && status == Some(current)
      ensures current == old(status).value.(state := Failed)
      ensures machine.dispatches == 0 && StaysFinal(machine)
    {
      StepReachable(machine, Event.Refuse);
      InvReachable(machine);
      Update(Failed);
      machine := Next(machine, Event.Refuse);
      TerminalIsFinalIffReleased(machine);
      return status.value;
    }

    /** The dispatch returned or its outcome is unknown; either way it is never repeated. */
    method FinishSubmit(accepted: bool) returns (current: Receipt)
      requires Valid() && Enabled(machine, Event.FinishSubmit(accepted))
      modifies this
      ensures Valid() && machine == Next(old(machine), Event.FinishSubmit(accepted)) && status == Some(current)
      ensures current == old(status).value.(state := if accepted then Queued else DispatchUnknown)
      ensures GateOpen(current) && machine.dispatches == 1 && machine.starts == 0
    {
      StepReachable(machine, Event.FinishSubmit(accepted));
      InvReachable(machine);
      Update(if accepted then Queued else DispatchUnknown);
      machine := Next(machine, Event.FinishSubmit(accepted));
      InvReachable(machine);
      return status.value;
    }

    /** The answer to a second submission: the receipt for the same request and an error for any other. */
    method Resubmit(request: Request) returns (response: Result<Receipt, string>)
      requires Valid() && Enabled(machine, Event.Resubmit(request))
      ensures response.Success? <==> status.Some? && machine.request == Some(request)
      ensures response.Success? ==> status == Some(response.value)
      ensures Next(machine, Event.Resubmit(request)) == machine
    {
      InvReachable(machine);
      if status.None? {
        return Failure("invalid or oversized JSON file");
      }
      if status.value.digest != Sha256(request) {
        return Failure("job id already exists");
      }
      return Success(status.value);
    }

    /** A poll: what it calls terminal has no runner behind it, what it calls completed, failed or cancelled
        stays so, an interruption once the submission is over, and what it calls live has an active service. */
    method Poll(serviceActive: bool) returns (current: Receipt)
      requires Valid() && Enabled(machine, Event.Poll) && serviceActive == machine.unit.Active?
      modifies this
      ensures Valid() && machine == Next(old(machine), Event.Poll) && status == Some(current)
      ensures current == if old(status).value.state in {Completed, Failed, Cancelled, Interrupted} || serviceActive
                         then old(status).value else old(status).value.(state := Interrupted)
      ensures Terminal(current) ==> NoGatedRunner(machine)
      ensures Terminal(current) && (current.state != Interrupted || machine.submitter.Released?) ==> StaysFinal(machine)
      ensures !Terminal(current) ==> serviceActive && machine == old(machine)
    {
      StepReachable(machine, Event.Poll);
      if status.value.state !in TERMINAL && !serviceActive {
        Update(Interrupted);
      }
      machine := Next(machine, Event.Poll);
      if Terminal(status.value) {
        TerminalAnswer(machine);
      }
      return status.value;
    }

    /** The first half of a cancel. When it asks for a stop the intent is on record, for good once the
        submission is over; otherwise nothing changes. */
    method CancelBegin(ghost c: nat) returns (stop: bool)
      requires Valid() && Enabled(machine, CancelBegins(c))
      modifies this
      ensures Valid() && machine == Next(old(machine), CancelBegins(c))
      ensures stop <==> old(status).value.state !in {Completed, Failed, Cancelled, Interrupted}
      ensures status == if stop then Some(old(status).value.(state := Cancelling)) else old(status)
      ensures stop <==> c in machine.cancellers
      ensures stop ==> status.value.state == Cancelling && (machine.submitter.Released? ==> IntentKept(machine))
      ensures !stop ==> machine == old(machine) && Terminal(status.value)
    {
      StepReachable(machine, CancelBegins(c));
      stop := status.value.state !in TERMINAL;
      if stop {
        Update(Cancelling);
      }
      machine := Next(machine, CancelBegins(c));
      if stop {
        CancelIntentKeptIffReleased(machine);
      }
    }

    /** The second half, after the stop: the job is settled for good and nothing runs. */
    method CancelFinish(ghost c: nat) returns (current: Receipt)
      requires Valid() && Enabled(machine, CancelFinishes(c))
      modifies this
      ensures Valid() && machine == Next(old(machine), CancelFinishes(c)) && status == Some(current)
      ensures current == if old(status).value.state in {Completed, Failed, Cancelled} then old(status).value
                         else old(status).value.(state := Cancelled)
      ensures current.state in SETTLED && NoGatedRunner(machine) && StaysFinal(machine)
    {
      StepReachable(machine, CancelFinishes(c));
      CancelReturnsFinal(machine, c);
      if status.value.state !in TERMINAL - {Interrupted} {
        Update(Cancelled);
      }
      machine := Next(machine, CancelFinishes(c));
      return status.value;
    }

    /** A whole cancel around a stop that succeeds. Whatever all other actors do while the lock is free, it
        returns a terminal receipt with no runner behind it, and one that is settled for good unless the job
        was found interrupted at the start. */
    method Cancel(ghost c: nat, ghost during: seq<Event>, ghost after: State, found: Option<Receipt>)
      returns (current: Receipt)
      requires Valid() && Enabled(machine, CancelBegins(c))
      requires Runs(Next(machine, CancelBegins(c)), during, after) && found == after.receipt
      requires !Terminal(status.value) ==> Enabled(after, CancelFinishes(c))
      modifies this
      ensures Valid() && status == Some(current) && Terminal(current) && NoGatedRunner(machine)
      ensures Terminal(old(status).value) ==> machine == old(machine)
      ensures !Terminal(old(status).value) ==> current.state in SETTLED
      ensures current.state in SETTLED ==> StaysFinal(machine)
    {
      var stop := CancelBegin(c);
      if !stop {
        TerminalAnswer(machine);
        return status.value;
      }
      Others(during, after, found);
      current := CancelFinish(c);
    }

    /** The runner's gate: whoever gets through is the first and the only one. */
    method Gate(ghost r: nat) returns (proceed: bool)
      requires Valid() && Enabled(machine, RunnerGate(r))
      modifies this
      ensures Valid() && machine == Next(old(machine), RunnerGate(r))
      ensures proceed <==> old(status).value.state in {Queued, DispatchUnknown}
      ensures proceed ==> status == Some(old(status).value.(state := Running))
      ensures proceed <==> At(machine, r)
      ensures proceed ==> old(machine).starts == 0 && machine.starts == 1 && status.value.state == Running
      ensures proceed ==> forall q :: At(machine, q) ==> q == r
      ensures !proceed ==> status == old(status)
    {
      StepReachable(machine, RunnerGate(r));
      InvReachable(machine);
      proceed := status.value.state == Queued || status.value.state == DispatchUnknown;
      if proceed {
        Update(Running);
      }
      machine := Next(machine, RunnerGate(r));
      InvReachable(machine);
    }

    /** After its checks a validator goes on only while the job still runs, and then they are on record. */
    method Recheck(ghost r: nat, ghost codes: seq<int>, checks: CheckReceipt) returns (proceed: bool)
      requires Valid() && Enabled(machine, RunnerRecheck(r, codes)) && checks == FinalReceipt(PlanOf(machine), codes)
      modifies this
      ensures Valid() && machine == Next(old(machine), RunnerRecheck(r, codes))
      ensures proceed <==> At(machine, r)
      ensures proceed ==> old(status).value.state == Running
      ensures proceed ==> status == Some(old(status).value.(validation := Some(checks)))
      ensures !proceed ==> status == old(status) && status.value.state == Cancelling && NoGatedRunner(machine)
    {
      StepReachable(machine, RunnerRecheck(r, codes));
      GatedIsReleased(machine, r);
      InvReachable(machine);
      proceed := status.value.state == Running;
      if proceed {
        Update(Running);
        status := Some(status.value.(validation := Some(checks)));
      } else {
        LastRunnerLeaves(machine, Next(machine, RunnerRecheck(r, codes)), r);
      }
      machine := Next(machine, RunnerRecheck(r, codes));
    }

    /** The verdict: success exactly for a completed receipt, which the stored report and, for a
        validation, every planned check back up; a recorded cancellation is left alone. */
    method Finish(ghost r: nat, checks: Option<CheckReceipt>, report: string) returns (code: int)
      requires Valid() && Enabled(machine, RunnerFinishes(r)) && machine.runners[r] == Finishing(checks, report)
      modifies this
      ensures Valid() && machine == Next(old(machine), RunnerFinishes(r)) && NoGatedRunner(machine)
      ensures code == if status.value.state == Completed then 0 else 1
      ensures old(status).value.state != Cancelling ==>
        && machine.request.Some?
        && status.value.state ==
             (if Earned(machine.request.value.task, status.value.validation) then Completed else Failed)
        && status.value == old(status).value.(state := status.value.state, reportDigest := Some(Sha256(report)))
      ensures code == 0 ==> machine.report == Some(report) && status.value.reportDigest == Some(Sha256(report))
      ensures code == 0 && IsValidation(machine) ==>
        status.value.validation.Some? && EveryCheckPassed(PlanOf(machine), status.value.validation.value)
      ensures old(status).value.state == Cancelling ==> status == old(status)
    {
      StepReachable(machine, RunnerFinishes(r));
      VerdictIsEarned(machine, r);
      InvReachable(machine);
      code := 1;
      if status.value.state != Cancelling {
        var passed := checks.None? || checks.value.state == CheckPassed;
        Update(if passed then Completed else Failed);
        status := Some(status.value.(reportDigest := Some(Sha256(report))));
        code := if passed then 0 else 1;
      }
      LastRunnerLeaves(machine, Next(machine, RunnerFinishes(r)), r);
      machine := Next(machine, RunnerFinishes(r));
      InvReachable(machine);
    }

    /** An exception of the runner: the job has failed, unless it is being cancelled. */
    method Fail(ghost r: nat)
      requires Valid() && Enabled(machine, RunnerFails(r))
      modifies this
      ensures Valid() && machine == Next(old(machine), RunnerFails(r)) && NoGatedRunner(machine)
      ensures status == if old(status).value.state == Cancelling then old(status)
                        else Some(old(status).value.(state := Failed))
      ensures status.value.state == Failed ==> StaysFinal(machine)
    {
      StepReachable(machine, RunnerFails(r));
      GatedIsReleased(machine, r);
      InvReachable(machine);
      if status.value.state != Cancelling {
        Update(Failed);
      }
      LastRunnerLeaves(machine, Next(machine, RunnerFails(r)), r);
      machine := Next(machine, RunnerFails(r));
      if status.value.state == Failed {
        TerminalIsFinalIffReleased(machine);
      }
    }
  }

  lemma TerminalAnswer(s: State)
    requires Reachable(s) && s.receipt.Some? && Terminal(s.receipt.value)
    ensures NoGatedRunner(s)
    ensures s.receipt.value.state != Interrupted || s.submitter.Released? ==> StaysFinal(s)
  {
    TerminalMeansNoRunner(s);
    TerminalIsFinalIffReleased(s);
    if s.receipt.value.state != Interrupted {
      SettledIsFinal(s);
    }
  }
}
