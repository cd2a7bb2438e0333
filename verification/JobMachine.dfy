/** Every actor of one job id, interleaved at lock boundaries: submitters, pollers, cancellers,
    runners and the service manager. */
module JobMachine {
  import opened Basics
  import opened Wrappers
  import opened CargoChecks
  import opened CheckRun
  import opened JobReceipt

  /** The submitter that created the directory; it holds `.dispatch.lock` until `Released`. */
  datatype SubmitPc =
    | NotSubmitted
    | DirectoryMade
    | RequestWritten
    | ClaimWritten     // `.lock` is still free: outsiders may enter here
    | Preparing        // holds `.lock`; doctor and preflight
    | Dispatching      // holds `.lock`; systemd-run was invoked
    | Released

  /** A transient unit. Being loaded with a queued start job counts as active. */
  datatype Unit = Unloaded | StartSent | Active | Ended

  datatype RunnerPc =
    | Starting
    | Working
    | Reporting(checks: Option<CheckReceipt>)
    | Writing(checks: Option<CheckReceipt>)
    | Finishing(checks: Option<CheckReceipt>, text: string)
    | Raised

  datatype CancelPc = Stopping | Stopped

  datatype State = State(
    submitter: SubmitPc,
    request: Option<Request>,
    receipt: Option<Receipt>,
    report: Option<string>,
    unit: Unit,
    runners: map<nat, RunnerPc>,
    cancellers: map<nat, CancelPc>,
    dispatches: nat,    // systemd-run invocations so far
    starts: nat)        // runners that passed the gate so far

  datatype Event =
    | Submit(request: Request)
    | WriteRequest
    | WriteClaim
    | TakeLock
    | Refuse
    | Dispatch
    | FinishSubmit(accepted: bool)
    | SubmitterDies
    | Resubmit(other: Request)
    | UnitStarts
    | UnitEnds
    | RunnerStarts(r: nat)
    | RunnerDies(r: nat)
    | RunnerGate(r: nat)
    | RunnerRecheck(r: nat, codes: seq<int>)
    | RunnerRaises(r: nat)
    | RunnerOpensReport(r: nat)
    | RunnerWritesReport(r: nat, text: string)
    | RunnerFinishes(r: nat)
    | RunnerFails(r: nat)
    | Poll
    | CancelBegins(c: nat)
    | CancelStops(c: nat, ok: bool)
    | CancelFinishes(c: nat)
    | CancelDies(c: nat)

  const INITIAL := State(NotSubmitted, None, None, None, Unloaded, map[], map[], 0, 0)

  predicate Gated(pc: RunnerPc) {
    !pc.Starting?
  }

  /** `.lock` can be taken and there is a receipt to read. */
  predicate Open(s: State) {
    s.receipt.Some? && !s.submitter.Preparing? && !s.submitter.Dispatching?
  }

  predicate At(s: State, r: nat) {
    r in s.runners && Gated(s.runners[r])
  }

  predicate IsValidation(s: State) {
    s.request.Some? && s.request.value.task.Validation?
  }

  function PlanOf(s: State): seq<Command>
    requires IsValidation(s)
  {
    Plan(s.request.value.task.commands)
  }

  predicate Enabled(s: State, e: Event) {
    match e
    case Submit(_) => s.submitter.NotSubmitted?
    case WriteRequest => s.submitter.DirectoryMade?
    case WriteClaim => s.submitter.RequestWritten? && s.request.Some?
    case TakeLock => s.submitter.ClaimWritten? && s.receipt.Some?
    case Refuse => s.submitter.Preparing? && s.receipt.Some?
    case Dispatch => s.submitter.Preparing?
    case FinishSubmit(_) => s.submitter.Dispatching? && s.receipt.Some?
    case SubmitterDies => !s.submitter.NotSubmitted? && !s.submitter.Released?
    case Resubmit(_) => s.submitter.Released?
    case UnitStarts => s.unit.StartSent?
    case UnitEnds => s.unit.Active?
    case RunnerStarts(r) => s.unit.Active? && r !in s.runners
    case RunnerDies(r) => r in s.runners
    case RunnerGate(r) => Open(s) && r in s.runners && s.runners[r].Starting?
    case RunnerRecheck(r, codes) =>
      Open(s) && r in s.runners && s.runners[r].Working? && IsValidation(s) && Complete(PlanOf(s), codes)
    case RunnerRaises(r) => At(s, r)
    case RunnerOpensReport(r) => r in s.runners && s.runners[r].Reporting?
    case RunnerWritesReport(r, _) => r in s.runners && s.runners[r].Writing?
    case RunnerFinishes(r) => Open(s) && r in s.runners && s.runners[r].Finishing?
    case RunnerFails(r) => Open(s) && r in s.runners && s.runners[r].Raised?
    case Poll => Open(s)
    case CancelBegins(c) => Open(s) && c !in s.cancellers
    case CancelStops(c, ok) =>
      c in s.cancellers && s.cancellers[c].Stopping? && (ok ==> s.unit.Active? || s.unit.Ended?)
    case CancelFinishes(c) => Open(s) && c in s.cancellers && s.cancellers[c].Stopped?
    case CancelDies(c) => c in s.cancellers
  }

  function Next(s: State, e: Event): State
    requires Enabled(s, e)
  {
    match e
    case Submit(request) => s.(submitter := DirectoryMade, request := Some(request))
    case WriteRequest => s.(submitter := RequestWritten)
    case WriteClaim => s.(submitter := ClaimWritten, receipt := Some(Claim(s.request.value)))
    case TakeLock => s.(submitter := Preparing)
    case Refuse => s.(submitter := Released, receipt := Some(s.receipt.value.(state := Failed)))
    case Dispatch => s.(submitter := Dispatching, unit := StartSent, dispatches := s.dispatches + 1)
    case FinishSubmit(accepted) =>
      s.(submitter := Released,
         receipt := Some(s.receipt.value.(state := if accepted then Queued else DispatchUnknown)))
    case SubmitterDies => s.(submitter := Released)
    case Resubmit(_) => s
    case UnitStarts => s.(unit := Active)
    case UnitEnds => s.(unit := Ended, runners := map[])
    case RunnerStarts(r) => s.(runners := s.runners[r := Starting])
    case RunnerDies(r) => Without(s, r)
    case RunnerGate(r) =>
      if GateOpen(s.receipt.value)
      then s.(receipt := Some(AfterGate(s.receipt.value)), runners := s.runners[r := AfterGatePc(s)],
              starts := s.starts + 1)
      else Without(s, r)
    case RunnerRecheck(r, codes) =>
      var checks := FinalReceipt(PlanOf(s), codes);
      if s.receipt.value.state == Running
      then s.(receipt := Some(AfterRecheck(s.receipt.value, checks)),
          runners := s.runners[r := Reporting(Some(checks))])
      else Without(s, r)
    case RunnerRaises(r) => s.(runners := s.runners[r := Raised])
    case RunnerOpensReport(r) =>
      if s.report.Some? then s.(runners := s.runners[r := Raised])
      else s.(report := Some(""), runners := s.runners[r := Writing(s.runners[r].checks)])
    case RunnerWritesReport(r, text) =>
      s.(report := Some(text), runners := s.runners[r := Finishing(s.runners[r].checks, text)])
    case RunnerFinishes(r) =>
      var pc := s.runners[r];
      Without(s.(receipt := Some(AfterFinish(s.receipt.value, pc.checks, pc.text))), r)
    case RunnerFails(r) => Without(s.(receipt := Some(AfterFailure(s.receipt.value))), r)
    case Poll => s.(receipt := Some(AfterStatus(s.receipt.value, s.unit.Active?)))
    case CancelBegins(c) =>
      if Terminal(s.receipt.value) then s
      else s.(receipt := Some(AfterCancelBegin(s.receipt.value)), cancellers := s.cancellers[c := Stopping])
    case CancelStops(c, ok) =>
      if ok then s.(unit := Ended, runners := map[], cancellers := s.cancellers[c := Stopped])
      else s.(cancellers := s.cancellers - {c})
    case CancelFinishes(c) =>
      s.(receipt := Some(AfterCancelFinish(s.receipt.value)), cancellers := s.cancellers - {c})
    case CancelDies(c) => s.(cancellers := s.cancellers - {c})
  }

  function Without(s: State, r: nat): State {
    s.(runners := s.runners - {r})
  }

  /** Validators run their checks first; an inspection goes straight to its report. */
  function AfterGatePc(s: State): RunnerPc {
    if IsValidation(s) then Working else Reporting(None)
  }

  predicate Runs(s: State, es: seq<Event>, t: State)
    decreases |es|
  {
    if es == [] then s == t
    else Enabled(s, es[0]) && Runs(Next(s, es[0]), es[1..], t)
  }

  ghost predicate Reachable(s: State) {
    exists es :: Runs(INITIAL, es, s)
  }

  lemma {:induction false} RunsCompose(s: State, a: seq<Event>, t: State, b: seq<Event>, u: State)
    requires Runs(s, a, t) && Runs(t, b, u)
    ensures Runs(s, a + b, u)
    decreases |a|
  {
    if a == [] {
      assert a + b == b;
    } else {
      assert (a + b)[1..] == a[1..] + b;
      RunsCompose(Next(s, a[0]), a[1..], t, b, u);
    }
  }

  // ----- The invariant ---------------------------------------------------------------------

  /** Dispatch happens once, inside the only submission that ever gets past the directory. */
  ghost predicate DispatchedOnce(s: State) {
    && s.dispatches <= 1
    && (s.unit.Unloaded? <==> s.dispatches == 0)
    && (!s.submitter.Dispatching? && !s.submitter.Released? ==> s.dispatches == 0)
    && (s.submitter.Dispatching? ==> s.dispatches == 1)
    && (s.submitter.NotSubmitted? <==> s.request.None?)
    && (s.submitter.NotSubmitted? || s.submitter.DirectoryMade? || s.submitter.RequestWritten? ==> s.receipt.None?)
    && (s.receipt.Some? ==> s.request.Some? && s.receipt.value.digest == Sha256(s.request.value))
  }

  /** The gate is open at most once, and the runner behind it lives only while its unit does. */
  ghost predicate StartedOnce(s: State) {
    && s.starts <= 1
    && (!s.submitter.Released? ==> s.starts == 0)
    && (s.receipt.Some? && GateOpen(s.receipt.value) ==> s.submitter.Released? && s.starts == 0)
    && (s.receipt.Some? && s.receipt.value.state == Claimed ==> s.starts == 0)
    && (forall r :: r in s.runners ==> s.unit.Active?)
    && (forall r :: At(s, r) ==> s.starts == 1 && s.receipt.Some?)
    && (forall q, r :: At(s, q) && At(s, r) ==> q == r)
  }

  ghost predicate NoGatedRunner(s: State) {
    forall r :: !At(s, r)
  }

  ghost predicate CancelSafe(s: State) {
    && (s.receipt.None? || s.receipt.value.state == Claimed ==> s.cancellers == map[])
    && (forall c :: c in s.cancellers && s.cancellers[c].Stopped? ==> s.unit.Ended?)
    && (s.receipt.Some? && Terminal(s.receipt.value) ==> NoGatedRunner(s))
    && (!s.submitter.Released? && s.receipt.Some? ==> s.receipt.value.state in {Claimed, Cancelling, Interrupted})
  }

  /** `checks` is the receipt of a run of this request's own plan that ended by itself. */
  ghost predicate OwnChecks(request: Request, checks: CheckReceipt) {
    && request.task.Validation?
    && var plan := Plan(request.task.commands);
       exists codes :: Complete(plan, codes) && checks == FinalReceipt(plan, codes)
  }

  /** A verdict the runner carries is the one recorded in the receipt. */
  ghost predicate Carries(request: Request, recorded: Option<CheckReceipt>, checks: Option<CheckReceipt>) {
    && (checks.Some? <==> request.task.Validation?)
    && (checks.Some? ==> recorded == checks && OwnChecks(request, checks.value))
  }

  ghost predicate RunnerTruthful(s: State, pc: RunnerPc) {
    pc.Reporting? || pc.Writing? || pc.Finishing? ==>
      && s.request.Some? && s.receipt.Some?
      && Carries(s.request.value, s.receipt.value.validation, pc.checks)
      && (pc.Finishing? ==> s.report == Some(pc.text))
  }

  ghost predicate Truthful(s: State) {
    && (forall r :: r in s.runners ==> RunnerTruthful(s, s.runners[r]))
    && (s.receipt.Some? ==> ReceiptTruthful(s))
  }

  ghost predicate ReceiptTruthful(s: State)
    requires s.receipt.Some?
  {
    var rc := s.receipt.value;
    && (rc.reportDigest.Some? ==>
          s.starts == 1 && NoGatedRunner(s) && s.report.Some? && rc.reportDigest.value == Sha256(s.report.value))
    && (rc.state == Completed ==>
          && rc.reportDigest.Some?
          && (IsValidation(s) ==> rc.validation.Some? && EveryCheckPassed(PlanOf(s), rc.validation.value)))
  }

  lemma DispatchedOnceStep(s: State, e: Event)
    requires DispatchedOnce(s) && Enabled(s, e)
    ensures DispatchedOnce(Next(s, e))
  {
  }

  /** A runner is past the gate only if it was before, or this step let it through. */
  lemma GatedBefore(s: State, e: Event, q: nat)
    requires Enabled(s, e) && At(Next(s, e), q)
    ensures At(s, q) || (e == RunnerGate(q) && GateOpen(s.receipt.value))
  {
  }

  lemma StartedOnceStep(s: State, e: Event)
    requires DispatchedOnce(s) && StartedOnce(s) && Enabled(s, e)
    ensures StartedOnce(Next(s, e))
  {
    var t := Next(s, e);
    forall q | At(t, q)
      ensures t.starts == 1 && t.receipt.Some?
      ensures forall r :: At(t, r) ==> q == r
    {
      GatedBefore(s, e, q);
      forall r | At(t, r)
        ensures q == r
      {
        GatedBefore(s, e, r);
      }
    }
  }

  /** The step that lets a runner through records `running`; every other step keeps its distance. */
  lemma CancelSafeStep(s: State, e: Event)
    requires DispatchedOnce(s) && StartedOnce(s) && CancelSafe(s) && Enabled(s, e)
    ensures CancelSafe(Next(s, e))
  {
    var t := Next(s, e);
    if e.RunnerFinishes? || e.RunnerFails? {
      assert At(s, e.r);
    }
    if t.receipt.Some? && Terminal(t.receipt.value) {
      forall q | At(t, q)
        ensures false
      {
        GatedBefore(s, e, q);
      }
    }
  }

  /** Once there is a receipt its request stays, and only a recheck replaces the checks on record. */
  lemma RecordKept(s: State, e: Event)
    requires DispatchedOnce(s) && Enabled(s, e) && s.receipt.Some?
    ensures var t := Next(s, e);
      && t.receipt.Some? && t.request == s.request
      && (e.RunnerRecheck? || t.receipt.value.validation == s.receipt.value.validation)
  {
  }

  lemma RunnerTruthfulStep(s: State, e: Event, q: nat)
    requires DispatchedOnce(s) && StartedOnce(s) && Truthful(s) && Enabled(s, e)
    requires At(Next(s, e), q)
    ensures RunnerTruthful(Next(s, e), Next(s, e).runners[q])
  {
    var t := Next(s, e);
    GatedBefore(s, e, q);
    if At(s, q) {
      assert RunnerTruthful(s, s.runners[q]);
      RecordKept(s, e);
      if e.RunnerRecheck? || e.RunnerOpensReport? || e.RunnerWritesReport? {
        assert At(s, e.r);
        assert q == e.r;
      }
      if e.RunnerRecheck? {
        assert OwnChecks(s.request.value, FinalReceipt(PlanOf(s), e.codes));
      }
    }
  }

  lemma ReceiptTruthfulStep(s: State, e: Event)
    requires DispatchedOnce(s) && StartedOnce(s) && Truthful(s) && Enabled(s, e)
    requires Next(s, e).receipt.Some?
    ensures ReceiptTruthful(Next(s, e))
  {
    var t := Next(s, e);
    if e.RunnerFinishes? || e.RunnerOpensReport? || e.RunnerWritesReport? || e.RunnerRecheck? {
      assert At(s, e.r);
    }
    forall q | At(t, q) && t.receipt.value.reportDigest.Some?
      ensures false
    {
      GatedBefore(s, e, q);
    }
    if e.RunnerFinishes? {
      var pc := s.runners[e.r];
      assert RunnerTruthful(s, pc);
      if pc.checks.Some? {
        var codes :| Complete(PlanOf(s), codes) && pc.checks.value == FinalReceipt(PlanOf(s), codes);
        PassedMeansEveryCheckPassed(PlanOf(s), codes);
      }
    }
  }
}
