/** Running the planned checks: the durable `checks.json` receipt, write by write. */
module CheckRun {
  import opened Wrappers
  import opened CargoChecks

  datatype CheckState = CheckRunning | CheckPassed | CheckFailed
  datatype CheckRecord = CheckRecord(command: Command, state: CheckState, exitCode: Option<int>)
  datatype CheckReceipt = CheckReceipt(state: CheckState, checks: seq<CheckRecord>, planned: nat)

  /** What the environment does with one planned command. */
  datatype Outcome =
    | NoDirectory        // the private log directory cannot be created
    | Errored            // the deadline passed, or the sandboxed process could not be streamed
    | Exited(code: int)

  function Recorded(command: Command, code: int): CheckRecord {
    CheckRecord(command, if code == 0 then CheckPassed else CheckFailed, Some(code))
  }

  /** Exit codes of a run that was not cut short by an exception. */
  predicate Complete(plan: seq<Command>, codes: seq<int>) {
    && |codes| <= |plan|
    && (forall i :: 0 <= i < |codes| - 1 ==> codes[i] == 0)
    && (|codes| < |plan| ==> codes != [] && codes[|codes| - 1] != 0)
  }

  predicate AllZero(codes: seq<int>) {
    forall i :: 0 <= i < |codes| ==> codes[i] == 0
  }

  function FinalReceipt(plan: seq<Command>, codes: seq<int>): CheckReceipt
    requires Complete(plan, codes)
  {
    CheckReceipt(
      if AllZero(codes) then CheckPassed else CheckFailed,
      seq(|codes|, i requires 0 <= i < |codes| => Recorded(plan[i], codes[i])),
      |plan|)
  }

  /** Every planned command has a record, and every record is an exit with status zero. */
  predicate EveryCheckPassed(plan: seq<Command>, receipt: CheckReceipt) {
    && receipt.planned == |receipt.checks| == |plan|
    && forall i :: 0 <= i < |plan| ==> receipt.checks[i] == CheckRecord(plan[i], CheckPassed, Some(0))
  }

  /** `passed` is never said of a run that skipped or failed a planned command. */
  lemma PassedMeansEveryCheckPassed(plan: seq<Command>, codes: seq<int>)
    requires Complete(plan, codes)
    ensures FinalReceipt(plan, codes).state == CheckPassed <==> EveryCheckPassed(plan, FinalReceipt(plan, codes))
    ensures FinalReceipt(plan, codes).state == CheckPassed <==> |codes| == |plan| && AllZero(codes)
  {
    var r := FinalReceipt(plan, codes);
    if EveryCheckPassed(plan, r) {
      forall i | 0 <= i < |codes|
        ensures codes[i] == 0
      {
        assert r.checks[i] == Recorded(plan[i], codes[i]);
      }
    }
  }

  /** What a reader may find in `checks.json` at any moment: the records are a prefix of the plan,
      all but the last passed, and a verdict is only there when the records support it. */
  predicate Durable(plan: seq<Command>, w: CheckReceipt) {
    && w.planned == |plan|
    && |w.checks| <= |plan|
    && (forall i :: 0 <= i < |w.checks| ==> w.checks[i].command == plan[i])
    && (forall i :: 0 <= i < |w.checks| - 1 ==> w.checks[i] == CheckRecord(plan[i], CheckPassed, Some(0)))
    && (w.state == CheckPassed ==> EveryCheckPassed(plan, w))
    && (w.state == CheckFailed ==> w.checks != [] && w.checks[|w.checks| - 1].state == CheckFailed)
  }

  predicate PassedSoFar(outcomes: nat -> Outcome, n: nat) {
    forall i: nat :: i < n ==> outcomes(i) == Exited(0)
  }

  /** The records of the first `n` commands when all of them exited with status zero. */
  function PassedRecords(plan: seq<Command>, n: nat): seq<CheckRecord>
    requires n <= |plan|
  {
    seq(n, i requires 0 <= i < n => CheckRecord(plan[i], CheckPassed, Some(0)))
  }

  /** Exit codes of a run whose first nonzero status, if any, is `code`, the last one. */
  function Codes(n: nat, code: int): seq<int> {
    seq(n, i => 0) + [code]
  }

  lemma FinalAfterFailure(plan: seq<Command>, n: nat, code: int)
    requires n < |plan| && code != 0
    ensures Complete(plan, Codes(n, code))
    ensures FinalReceipt(plan, Codes(n, code)) ==
            CheckReceipt(CheckFailed, PassedRecords(plan, n) + [CheckRecord(plan[n], CheckFailed, Some(code))], |plan|)
  {
    assert Codes(n, code)[n] != 0;
  }

  lemma FinalAfterAll(plan: seq<Command>)
    ensures Complete(plan, seq(|plan|, i => 0))
    ensures FinalReceipt(plan, seq(|plan|, i => 0)) == CheckReceipt(CheckPassed, PassedRecords(plan, |plan|), |plan|)
  {
  }

  /** The run ended by itself with these exit codes, and `w` is what it left. */
  predicate EndedWith(plan: seq<Command>, outcomes: nat -> Outcome, codes: seq<int>, w: CheckReceipt) {
    && Complete(plan, codes)
    && (forall i :: 0 <= i < |codes| ==> outcomes(i) == Exited(codes[i]))
    && w == FinalReceipt(plan, codes)
  }

  /** What is durable when an exception leaves at command `n`: without a log directory nothing was written
      for it, otherwise it is the last record, failed and without an exit code. */
  function LeftBy(plan: seq<Command>, n: nat, outcome: Outcome): CheckReceipt
    requires n < |plan|
  {
    if outcome.NoDirectory? then CheckReceipt(CheckRunning, PassedRecords(plan, n), |plan|)
    else CheckReceipt(CheckFailed, PassedRecords(plan, n) + [CheckRecord(plan[n], CheckFailed, None)], |plan|)
  }

  /** An exception left the run at command `n`. */
  predicate RaisedAt(plan: seq<Command>, outcomes: nat -> Outcome, n: nat) {
    n < |plan| && PassedSoFar(outcomes, n) && !outcomes(n).Exited?
  }

  lemma EndsAfterFailure(plan: seq<Command>, outcomes: nat -> Outcome, n: nat, code: int)
    requires n < |plan| && PassedSoFar(outcomes, n) && outcomes(n) == Exited(code) && code != 0
    ensures EndedWith(plan, outcomes, Codes(n, code),
                      CheckReceipt(CheckFailed, PassedRecords(plan, n) + [Recorded(plan[n], code)], |plan|))
    ensures !PassedSoFar(outcomes, |plan|) && forall k: nat :: !RaisedAt(plan, outcomes, k)
  {
    FinalAfterFailure(plan, n, code);
  }

  lemma EndsAfterAll(plan: seq<Command>, outcomes: nat -> Outcome)
    requires PassedSoFar(outcomes, |plan|)
    ensures EndedWith(plan, outcomes, seq(|plan|, i => 0),
        CheckReceipt(CheckPassed, PassedRecords(plan, |plan|), |plan|))
    ensures forall k: nat :: !RaisedAt(plan, outcomes, k)
  {
    FinalAfterAll(plan);
  }

  /** `checks.json` of one job; `history` holds every value a reader could have found in it. */
  class ChecksFile {
    const plan: seq<Command>
    var content: CheckReceipt
    ghost var history: seq<CheckReceipt>

    ghost predicate Valid()
      reads this
    {
      && (forall i :: 0 <= i < |history| ==> Durable(plan, history[i]))
      && history != []
      && content == history[|history| - 1]
    }

    constructor (plan: seq<Command>)
      ensures Valid() && this.plan == plan && content == CheckReceipt(CheckRunning, [], |plan|)
    {
      this.plan := plan;
      content := CheckReceipt(CheckRunning, [], |plan|);
      history := [CheckReceipt(CheckRunning, [], |plan|)];
    }

    method Write(receipt: CheckReceipt)
      requires Valid() && Durable(plan, receipt)
      modifies this
      ensures Valid() && content == receipt
      ensures history == old(history) + [receipt]
    {
      content := receipt;
      history := history + [receipt];
    }

    /** One iteration of the loop of `execute_checks`; `None` means an exception leaves it. */
    method RunOne(index: nat, outcome: Outcome) returns (code: Option<int>)
      requires Valid() && index < |plan|
      requires content == CheckReceipt(CheckRunning, PassedRecords(plan, index), |plan|)
      modifies this
      ensures Valid() && old(history) <= history
      ensures code == if outcome.Exited? then Some(outcome.code) else None
      ensures code.Some? ==>
                content.state == CheckRunning && content.planned == |plan|
                && content.checks == PassedRecords(plan, index)
                     + [CheckRecord(plan[index], if code.value == 0 then CheckPassed else CheckFailed, code)]
      ensures outcome.NoDirectory? ==> content == old(content)
      ensures outcome.Errored? ==>
        content == CheckReceipt(CheckFailed, PassedRecords(plan, index) + [CheckRecord(plan[index], CheckFailed, None)],
                                |plan|)
      ensures history == old(history) +
        if outcome.NoDirectory? then []
        else
          var started := CheckRecord(plan[index], CheckRunning, None);
          [CheckReceipt(CheckRunning, PassedRecords(plan, index) + [started], |plan|), content]
    {
      if outcome.NoDirectory? {
        return None;
      }
      var done := content.checks;
      Write(content.(checks := done + [CheckRecord(plan[index], CheckRunning, None)]));
      if outcome.Errored? {
        Write(CheckReceipt(CheckFailed, done + [CheckRecord(plan[index], CheckFailed, None)], |plan|));
        return None;
      }
      Write(content.(checks := done + [Recorded(plan[index], outcome.code)]));
      return Some(outcome.code);
    }

    /** `execute_checks` after its preflight. A `Failure` is an exception leaving the function. */
    method Execute(outcomes: nat -> Outcome) returns (result: Result<CheckReceipt, string>)
      requires Valid() && content == CheckReceipt(CheckRunning, [], |plan|)
      modifies this
      ensures Valid() && old(history) <= history
      ensures result.Success? ==> result.value == content && exists codes :: EndedWith(plan, outcomes, codes, content)
      ensures result.Success? && content.state == CheckPassed <==> PassedSoFar(outcomes, |plan|)
      ensures result.Failure? <==> exists n: nat :: RaisedAt(plan, outcomes, n)
      ensures result.Failure? ==>
                exists n: nat :: RaisedAt(plan, outcomes, n) && content == LeftBy(plan, n, outcomes(n))
    {
      for index := 0 to |plan|
        invariant Valid() && old(history) <= history
        invariant PassedSoFar(outcomes, index)
        invariant content == CheckReceipt(CheckRunning, PassedRecords(plan, index), |plan|)
      {
        var code := RunOne(index, outcomes(index));
        if code.None? {
          assert RaisedAt(plan, outcomes, index);
          return Failure("raised");
        }
        if code.value != 0 {
          EndsAfterFailure(plan, outcomes, index, code.value);
          Write(content.(state := CheckFailed));
          return Success(content);
        }
        assert PassedRecords(plan, index + 1) == PassedRecords(plan, index) + [Recorded(plan[index], 0)];
      }
      EndsAfterAll(plan, outcomes);
      Write(content.(state := CheckPassed));
      return Success(content);
    }
  }
}
