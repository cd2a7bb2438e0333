/** One job's durable receipt and the critical sections that read and replace it. */
module JobReceipt {
  import opened Basics
  import opened Wrappers
  import opened CargoChecks
  import opened CheckRun

  datatype JobState =
    | Claimed | Queued | DispatchUnknown | Running | Cancelling
    | Completed | Failed | Cancelled | Interrupted

  const TERMINAL: set<JobState> := {Completed, Failed, Cancelled, Interrupted}

  datatype Task = Inspection(text: string) | Validation(text: string, commands: seq<CargoArgv>)

  /** Host profile, task and runner source: everything the submission digest covers. */
  datatype Request = Request(profile: string, task: Task)

  datatype Receipt = Receipt(
    digest: Digest<Request>,
    state: JobState,
    validation: Option<CheckReceipt>,
    reportDigest: Option<Digest<string>>)

  function Claim(request: Request): Receipt {
    Receipt(Sha256(request), Claimed, None, None)
  }

  predicate Terminal(r: Receipt) {
    r.state in TERMINAL
  }

  // ----- What each critical section does to the receipt ------------------------------------

  function AfterStatus(r: Receipt, serviceActive: bool): Receipt {
    if Terminal(r) || serviceActive then r else r.(state := Interrupted)
  }

  function AfterCancelBegin(r: Receipt): Receipt {
    if Terminal(r) then r else r.(state := Cancelling)
  }

  function AfterCancelFinish(r: Receipt): Receipt {
    if r.state in TERMINAL - {Interrupted} then r else r.(state := Cancelled)
  }

  predicate GateOpen(r: Receipt) {
    r.state == Queued || r.state == DispatchUnknown
  }

  function AfterGate(r: Receipt): Receipt {
    if GateOpen(r) then r.(state := Running) else r
  }

  function AfterRecheck(r: Receipt, checks: CheckReceipt): Receipt {
    if r.state == Running then r.(validation := Some(checks)) else r
  }

  /** The verdict the runner reaches; an inspection has no checks to pass. */
  predicate Accepts(checks: Option<CheckReceipt>) {
    checks.None? || checks.value.state == CheckPassed
  }

  function AfterFinish(r: Receipt, checks: Option<CheckReceipt>, report: string): Receipt {
    if r.state == Cancelling then r
    else r.(state := if Accepts(checks) then Completed else Failed, reportDigest := Some(Sha256(report)))
  }

  function AfterFailure(r: Receipt): Receipt {
    if r.state == Cancelling then r else r.(state := Failed)
  }

  /** The response of `submit` for a job directory that already exists. */
  function Resubmission(status: Option<Receipt>, request: Request): Result<Receipt, string> {
    match status
    case None => Failure("invalid or oversized JSON file")
    case Some(r) => if r.digest != Sha256(request) then Failure("job id already exists") else Success(r)
  }

  /** The `result` action: the stored report, when the receipt says there is one. */
  function ReadReport(r: Receipt, stored: Option<string>): Result<Option<string>, string> {
    if r.state != Completed && r.reportDigest.None? then Success(None)
    else if stored.None? then Failure("completed job report is missing")
    else if r.reportDigest != Some(Sha256(stored.value)) then Failure("report does not match its receipt")
    else Success(stored)
  }
}
