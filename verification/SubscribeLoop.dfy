/** The loop of a subscription: deadline, diagnostics and exit status around the reading of records. */
module SubscribeLoop {
  import opened Basics
  import opened Wrappers
  import opened RecordReader

  const MAX_DIAGNOSTIC_BYTES := 64 * 1024

  /** One read: bytes of the output, or so many bytes of diagnostics. */
  datatype Input = Output(chunk: seq<Byte>) | Diagnostics(count: nat)

  /** One pass of the loop: the deadline is over, or some streams are ready, perhaps none. */
  datatype Turn = Expired | Ready(inputs: seq<Input>)

  /** Each stream is ready at most once in a pass. */
  predicate WellFormed(inputs: seq<Input>) {
    forall i, j :: 0 <= i < j < |inputs| ==> inputs[i].Output? != inputs[j].Output?
  }

  predicate AreTurns(turns: seq<Turn>) {
    forall k :: 0 <= k < |turns| && turns[k].Ready? ==> WellFormed(turns[k].inputs)
  }

  // ----- What the loop does --------------------------------------------------------------------

  datatype Session = Session(reader: Reader, diagnostics: nat)

  const FRESH := Session(START, 0)

  predicate Failed(s: Session) {
    s.reader.stopped.Some? && s.reader.stopped.value.Failure?
  }

  function Fail(s: Session, error: Error): Session {
    s.(reader := s.reader.(stopped := Some(Failure(error))))
  }

  function Take(check: Check, s: Session, input: Input): Session {
    match input
    case Output(chunk) => s.(reader := Feed(check, s.reader, chunk))
    case Diagnostics(count) =>
      var total := s.diagnostics + count;
      if Failed(s) then s
      else if total > MAX_DIAGNOSTIC_BYTES then Fail(s.(diagnostics := total), DiagnosticsTooLong)
      else s.(diagnostics := total)
  }

  function TakeAll(check: Check, s: Session, inputs: seq<Input>): Session
    decreases |inputs|
  {
    if inputs == [] then s else TakeAll(check, Take(check, s, inputs[0]), inputs[1..])
  }

  function Follow(check: Check, s: Session, turns: seq<Turn>): Session
    decreases |turns|
  {
    if turns == [] || s.reader.stopped.Some? then s
    else if turns[0].Expired? then Fail(s, DeadlineElapsed)
    else Follow(check, TakeAll(check, s, turns[0].inputs), turns[1..])
  }

  const SIGTERM := 15

  /** What is returned or raised after the loop, given the exit status of the process. */
  function Conclude(s: Session, status: int): Result<bool, Error> {
    WithStatus(Finish(s.reader), status)
  }

  /** A stream that ended early is reported by the exit status, unless that is clean. */
  function WithStatus(r: Result<bool, Error>, status: int): (told: Result<bool, Error>)
    ensures r.Success? || !r.error.EndedEarly? || status == 0 || status == -15 ==> told == r
    ensures r.Failure? && r.error.EndedEarly? ==>
      && (status == 3 || status == 4 || status == 5 || status == 6 || status == 70 ==>
            told == Failure(ProcessFailed(status)))
      && (status !in {0, -15, 3, 4, 5, 6, 70} ==> told == Failure(ProcessFailed(4)))
  {
    if r.Failure? && r.error.EndedEarly? && status != 0 && status != -SIGTERM then
      Failure(ProcessFailed(if status in {3, 4, 5, 6, 70} then status else 4))
    else r
  }

  // ----- The loop ----------------------------------------------------------------------------------

  /** The reads of one pass. `None` means the loop goes on or has ended; an error leaves at once. */
  method HandleInputs(check: Check, inputs: seq<Input>, out0: seq<Byte>, seq0: int, diagnostics0: nat)
    returns (d: Drained, diagnostics: nat, error: Option<Error>)
    requires WellFormed(inputs)
    ensures var s := TakeAll(check, Session(Reader(out0, seq0, None), diagnostics0), inputs);
      if error.Some? then s.reader.stopped == Some(Failure(error.value)) && !error.value.EndedEarly?
      else s == Session(ReaderAfter(d), diagnostics) && d.failure.None? && !(d.sawResync && d.cleanEnd)
  {
    d, diagnostics, error := Drained(out0, seq0, false, false, None), diagnostics0, None;
    ghost var whole := TakeAll(check, Session(Reader(out0, seq0, None), diagnostics0), inputs);
    for j := 0 to |inputs|
      invariant d.failure.None? && !(d.sawResync && d.cleanEnd) && error.None?
      invariant d.sawResync || d.cleanEnd ==> forall k :: j <= k < |inputs| ==> !inputs[k].Output?
      invariant whole == TakeAll(check, Session(ReaderAfter(d), diagnostics), inputs[j..])
    {
      ghost var now, rest := Session(ReaderAfter(d), diagnostics), inputs[j + 1..];
      assert inputs[j..][0] == inputs[j] && inputs[j..][1..] == rest;
      if inputs[j].Diagnostics? {
        diagnostics := diagnostics + inputs[j].count;
        if diagnostics > MAX_DIAGNOSTIC_BYTES {
          FailedStays(check, Take(check, now, inputs[j]), rest);
          return d, diagnostics, Some(DiagnosticsTooLong);
        }
      } else {
        var stdout := d.stdout + inputs[j].chunk;
        if |stdout| > MAX_DOCUMENT_BYTES {
          FailedStays(check, Take(check, now, inputs[j]), rest);
          return d, diagnostics, Some(RecordTooLong);
        }
        d := DrainLines(check, stdout, d.sequence);
        if d.failure.Some? {
          FailedStays(check, Take(check, now, inputs[j]), rest);
          return d, diagnostics, Some(BadRecord(d.failure.value));
        }
      }
    }
    assert inputs[|inputs|..] == [];
  }

  lemma {:induction false} FailedStays(check: Check, s: Session, inputs: seq<Input>)
    requires Failed(s)
    ensures TakeAll(check, s, inputs) == s
    decreases |inputs|
  {
    if inputs != [] {
      FailedStays(check, s, inputs[1..]);
    }
  }

  /** `subscribe_until_resync`, from the first pass to the result. */
  method Subscribe(check: Check, turns: seq<Turn>, status: int) returns (result: Result<bool, Error>)
    requires AreTurns(turns)
    ensures result == Conclude(Follow(check, FRESH, turns), status)
  {
    var stdout: seq<Byte> := [];
    var sequence, diagnostics := 1, 0;
    var sawResync, cleanEnd := false, false;
    ghost var whole := Follow(check, FRESH, turns);
    var k := 0;
    while k < |turns| && !sawResync && !cleanEnd
      invariant 0 <= k <= |turns| && !(sawResync && cleanEnd)
      invariant whole ==
        Follow(check, Session(ReaderOf(stdout, sequence, sawResync, cleanEnd), diagnostics), turns[k..])
    {
      assert turns[k..][0] == turns[k] && turns[k..][1..] == turns[k + 1..];
      if turns[k].Expired? {
        return Failure(DeadlineElapsed);
      }
      var d, error;
      ghost var after := TakeAll(check, Session(Reader(stdout, sequence, None), diagnostics), turns[k].inputs);
      d, diagnostics, error := HandleInputs(check, turns[k].inputs, stdout, sequence, diagnostics);
      if error.Some? {
        assert Follow(check, after, turns[k + 1..]) == after;
        return Failure(error.value);
      }
      stdout, sequence, sawResync, cleanEnd := d.stdout, d.sequence, d.sawResync, d.cleanEnd;
      k := k + 1;
    }
    if stdout != [] {
      return Failure(PartialRecord);
    }
    if !sawResync && !cleanEnd {
      if status != 0 && status != -SIGTERM {
        return Failure(ProcessFailed(if status in {3, 4, 5, 6, 70} then status else 4));
      }
      return Failure(EndedEarly(sequence > 1));
    }
    return Success(sawResync);
  }

  // ----- What it comes to ----------------------------------------------------------------------------

  /** The reads of the output, in order. */
  function Outputs(inputs: seq<Input>): seq<seq<Byte>> {
    if inputs == [] then []
    else (if inputs[0].Output? then [inputs[0].chunk] else []) + Outputs(inputs[1..])
  }

  function OutputsOf(turns: seq<Turn>): seq<seq<Byte>> {
    if turns == [] then []
    else (if turns[0].Ready? then Outputs(turns[0].inputs) else []) + OutputsOf(turns[1..])
  }

  /** The loop failed for a reason that is not in the output. */
  predicate Interrupted(s: Session) {
    s.reader.stopped == Some(Failure(DeadlineElapsed)) || s.reader.stopped == Some(Failure(DiagnosticsTooLong))
  }

  lemma {:induction false} TakeAllReads(check: Check, s: Session, inputs: seq<Input>)
    ensures var t := TakeAll(check, s, inputs); Interrupted(t) || t.reader == FeedAll(check, s.reader, Outputs(inputs))
    decreases |inputs|
  {
    if inputs != [] {
      var next, rest := Take(check, s, inputs[0]), inputs[1..];
      TakeAllReads(check, next, rest);
      if inputs[0].Output? {
        FeedAllCons(check, s.reader, inputs[0].chunk, Outputs(rest));
      } else {
        assert [] + Outputs(rest) == Outputs(rest);
        if Interrupted(next) {
          FailedStays(check, next, rest);
        }
      }
    }
  }

  /** Unless the deadline or the diagnostics end it, the loop ends where reading the output alone ends. */
  lemma {:induction false} FollowReads(check: Check, s: Session, turns: seq<Turn>)
    ensures var t := Follow(check, s, turns); Interrupted(t) || t.reader == FeedAll(check, s.reader, OutputsOf(turns))
    decreases |turns|
  {
    if s.reader.stopped.Some? || turns == [] {
      StoppedStays(check, s.reader, OutputsOf(turns));
    } else if turns[0].Ready? {
      var next, rest := TakeAll(check, s, turns[0].inputs), turns[1..];
      TakeAllReads(check, s, turns[0].inputs);
      FollowReads(check, next, rest);
      FeedAllAppend(check, s.reader, Outputs(turns[0].inputs), OutputsOf(rest));
    }
  }

  /** The outcome of the whole loop is that of reading the output alone, its early end told by the exit
      status, or the deadline or the diagnostics have ended it; these are never a success. */
  lemma SubscribeReads(check: Check, turns: seq<Turn>, status: int)
    ensures var result := Conclude(Follow(check, FRESH, turns), status);
      || result == WithStatus(Run(check, OutputsOf(turns)), status)
      || result == Failure(DeadlineElapsed) || result == Failure(DiagnosticsTooLong)
    ensures var result := Conclude(Follow(check, FRESH, turns), status);
      result.Success? ==> Run(check, OutputsOf(turns)) == result
  {
    FollowReads(check, FRESH, turns);
  }

  function Bytes(inputs: seq<Input>): nat {
    if inputs == [] then 0 else (if inputs[0].Diagnostics? then inputs[0].count else 0) + Bytes(inputs[1..])
  }

  function DiagnosticBytes(turns: seq<Turn>): nat {
    if turns == [] then 0
    else (if turns[0].Ready? then Bytes(turns[0].inputs) else 0) + DiagnosticBytes(turns[1..])
  }

  lemma {:induction false} DrainFails(check: Check, buffer: seq<Byte>, expected: int)
    ensures var end := Drain(check, buffer, expected).stopped;
      end.Some? && end.value.Failure? ==> end.value.error.BadRecord?
    decreases |buffer|
  {
    var i := FirstNewline(buffer);
    if i < |buffer| {
      DrainFails(check, buffer[i + 1..], expected + 1);
    }
  }

  /** Reading output does not end the loop for another reason. */
  lemma TakeOutput(check: Check, s: Session, chunk: seq<Byte>)
    requires !Interrupted(s)
    ensures !Interrupted(Take(check, s, Output(chunk)))
  {
    DrainFails(check, s.reader.buffer + chunk, s.reader.expected);
  }

  lemma {:induction false} TakeAllCounts(check: Check, s: Session, inputs: seq<Input>)
    requires !Interrupted(s) && s.diagnostics + Bytes(inputs) <= MAX_DIAGNOSTIC_BYTES
    ensures var t := TakeAll(check, s, inputs);
      !Interrupted(t) && t.diagnostics <= s.diagnostics + Bytes(inputs)
      && (!Failed(t) ==> t.diagnostics == s.diagnostics + Bytes(inputs))
    decreases |inputs|
  {
    if Failed(s) {
      FailedStays(check, s, inputs);
    } else if inputs != [] {
      if inputs[0].Output? {
        TakeOutput(check, s, inputs[0].chunk);
      }
      TakeAllCounts(check, Take(check, s, inputs[0]), inputs[1..]);
    }
  }

  lemma {:induction false} FollowCounts(check: Check, s: Session, turns: seq<Turn>)
    requires !Interrupted(s) && s.diagnostics + DiagnosticBytes(turns) <= MAX_DIAGNOSTIC_BYTES
    requires forall k :: 0 <= k < |turns| ==> turns[k].Ready?
    ensures var t := Follow(check, s, turns);
      !Interrupted(t) && (t.reader.stopped.None? ==> t.diagnostics == s.diagnostics + DiagnosticBytes(turns))
    decreases |turns|
  {
    if turns != [] && s.reader.stopped.None? {
      TakeAllCounts(check, s, turns[0].inputs);
      FollowCounts(check, TakeAll(check, s, turns[0].inputs), turns[1..]);
    }
  }

  /** In time and with little said on the side, the outcome is that of reading the output alone. */
  lemma QuietSubscribeReads(check: Check, turns: seq<Turn>, status: int)
    requires DiagnosticBytes(turns) <= MAX_DIAGNOSTIC_BYTES && forall k :: 0 <= k < |turns| ==> turns[k].Ready?
    ensures Conclude(Follow(check, FRESH, turns), status) == WithStatus(Run(check, OutputsOf(turns)), status)
  {
    FollowReads(check, FRESH, turns);
    FollowCounts(check, FRESH, turns);
  }

  // ----- What ends it early --------------------------------------------------------------------------

  lemma {:induction false} FollowInParts(check: Check, s: Session, a: seq<Turn>, b: seq<Turn>)
    ensures Follow(check, s, a + b) == Follow(check, Follow(check, s, a), b)
    decreases |a|
  {
    if a == [] {
      assert a + b == b;
    } else {
      assert (a + b)[1..] == a[1..] + b;
      if s.reader.stopped.None? && a[0].Ready? {
        FollowInParts(check, TakeAll(check, s, a[0].inputs), a[1..], b);
      }
    }
  }

  /** Nothing has ended the loop in its first passes: they were in time, the output went on and 64 KiB of
      diagnostics were not exceeded. */
  ghost predicate GoesOn(check: Check, turns: seq<Turn>) {
    && (forall i :: 0 <= i < |turns| ==> turns[i].Ready?)
    && DiagnosticBytes(turns) <= 65536
    && FeedAll(check, START, OutputsOf(turns)).stopped.None?
  }

  lemma GoingOn(check: Check, turns: seq<Turn>)
    requires GoesOn(check, turns)
    ensures var t := Follow(check, FRESH, turns);
      && t.reader.stopped.None? && t.diagnostics == DiagnosticBytes(turns)
      && t.reader == FeedAll(check, START, OutputsOf(turns))
  {
    FollowReads(check, FRESH, turns);
    FollowCounts(check, FRESH, turns);
  }

  /** A loop that is still going when its deadline is over ends with that. */
  lemma DeadlineEnds(check: Check, before: seq<Turn>, after: seq<Turn>, status: int)
    requires GoesOn(check, before)
    ensures Conclude(Follow(check, FRESH, before + ([Expired] + after)), status) == Failure(DeadlineElapsed)
  {
    GoingOn(check, before);
    FollowInParts(check, FRESH, before, [Expired] + after);
  }

  lemma {:induction false} TakeAllOverflows(check: Check, s: Session, inputs: seq<Input>)
    requires !Failed(s) && s.diagnostics <= 65536 < s.diagnostics + Bytes(inputs)
    requires var end := FeedAll(check, s.reader, Outputs(inputs)).stopped; end.None? || end.value.Success?
    ensures TakeAll(check, s, inputs).reader.stopped == Some(Failure(DiagnosticsTooLong))
    decreases |inputs|
  {
    var next, rest := Take(check, s, inputs[0]), inputs[1..];
    if inputs[0].Output? {
      FeedAllCons(check, s.reader, inputs[0].chunk, Outputs(rest));
      StoppedStays(check, next.reader, Outputs(rest));
      TakeAllOverflows(check, next, rest);
    } else {
      assert [] + Outputs(rest) == Outputs(rest);
      if s.diagnostics + inputs[0].count > 65536 {
        FailedStays(check, next, rest);
      } else {
        TakeAllOverflows(check, next, rest);
      }
    }
  }

  /** More than 64 KiB of diagnostics end the loop, even along with output that would end it well. */
  lemma DiagnosticsEnd(check: Check, before: seq<Turn>, inputs: seq<Input>, after: seq<Turn>, status: int)
    requires GoesOn(check, before) && DiagnosticBytes(before) + Bytes(inputs) > 65536
    requires var end := FeedAll(check, START, OutputsOf(before) + Outputs(inputs)).stopped;
      end.None? || end.value.Success?
    ensures Conclude(Follow(check, FRESH, before + ([Ready(inputs)] + after)), status) == Failure(DiagnosticsTooLong)
  {
    GoingOn(check, before);
    var t := Follow(check, FRESH, before);
    FollowInParts(check, FRESH, before, [Ready(inputs)] + after);
    FeedAllAppend(check, START, OutputsOf(before), Outputs(inputs));
    TakeAllOverflows(check, t, inputs);
    assert ([Ready(inputs)] + after)[1..] == after;
  }
}
