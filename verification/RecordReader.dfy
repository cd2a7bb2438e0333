/** Newline-delimited records read in chunks of any size, for any way of checking one record. */
module RecordReader {
  import opened Basics
  import opened Wrappers

  const NEWLINE: Byte := 10
  const MAX_DOCUMENT_BYTES := 8 * 1024 * 1024
  const READ_CHUNK_BYTES := 16 * 1024

  datatype Kind = Snapshot | Update | AccessRevoked | Exited | ResyncRequired

  /** What can be wrong with one record. */
  datatype RecordError = BadSchema | BadShape | ChangedIdentity | EmptyRecord | InvalidJson | Revoked

  datatype Error = BadRecord(error: RecordError) | RecordTooLong | PartialRecord | EndedEarly(sawEvent: bool)
                 | DeadlineElapsed | DiagnosticsTooLong | ProcessFailed(category: int)

  /** The check of one record, without its newline, as the event with the given number. */
  type Check = (seq<Byte>, int) -> Result<Kind, RecordError>

  predicate Ends(kind: Kind) {
    kind == ResyncRequired || kind == Exited
  }

  // ----- The reference: a fold over the records of the whole stream ----------------------------

  /** The record in front of the first newline. */
  function FirstNewline(s: seq<Byte>): (i: nat)
    ensures i <= |s|
    ensures forall k :: 0 <= k < i ==> s[k] != NEWLINE
    ensures i < |s| ==> s[i] == NEWLINE
    ensures i == |s| <==> NEWLINE !in s
  {
    NewlineFrom(s, 0)
  }

  function NewlineFrom(s: seq<Byte>, from: nat): (i: nat)
    requires from <= |s|
    ensures from <= i <= |s|
    ensures forall k :: from <= k < i ==> s[k] != NEWLINE
    ensures i < |s| ==> s[i] == NEWLINE
    decreases |s| - from
  {
    if from == |s| || s[from] == NEWLINE then from else NewlineFrom(s, from + 1)
  }

  /** The complete records, and what follows the last newline. */
  function Split(s: seq<Byte>): (seq<seq<Byte>>, seq<Byte>)
    decreases |s|
  {
    var i := FirstNewline(s);
    if i == |s| then ([], s)
    else
      var (records, tail) := Split(s[i + 1..]);
      ([s[..i]] + records, tail)
  }

  /** The stream of these records, each with its newline. */
  function Written(records: seq<seq<Byte>>): seq<Byte> {
    if records == [] then [] else records[0] + [10] + Written(records[1..])
  }

  /** Records are what the newlines separate. */
  lemma {:induction false} SplitWritten(records: seq<seq<Byte>>)
    requires forall i :: 0 <= i < |records| ==> NEWLINE !in records[i]
    ensures Split(Written(records)) == (records, [])
  {
    if records != [] {
      SplitWritten(records[1..]);
      SplitLine(records[0], Written(records[1..]));
      assert records == [records[0]] + records[1..];
    }
  }

  lemma SplitLine(line: seq<Byte>, rest: seq<Byte>)
    requires NEWLINE !in line
    ensures Split(line + [10] + rest) == ([line] + Split(rest).0, Split(rest).1)
  {
    LineInFront(line, rest);
    var s := line + [10] + rest;
    assert s[..|line|] == line && s[|line| + 1..] == rest;
  }

  lemma LineInFront(line: seq<Byte>, rest: seq<Byte>)
    requires NEWLINE !in line
    ensures FirstNewline(line + [10] + rest) == |line|
  {
    var s := line + [10] + rest;
    assert s[|line|] == NEWLINE;
    assert forall k :: 0 <= k < |line| ==> s[k] == line[k] && line[k] in line;
  }

  /** How far the records lead: an error, the kind that ended the stream, or neither. */
  datatype Verdict = Going(next: int) | Ended(kind: Kind, records: nat) | Failed(error: Error)

  function Fold(check: Check, records: seq<seq<Byte>>, expected: int): Verdict {
    if records == [] then Going(expected)
    else
      match check(records[0], expected)
      case Failure(e) => Failed(BadRecord(e))
      case Success(kind) =>
        if Ends(kind) then Ended(kind, |records| - 1) else Fold(check, records[1..], expected + 1)
  }

  /** What the subscription returns; `true` asks for a resynchronisation. */
  function Outcome(check: Check, stream: seq<Byte>): Result<bool, Error> {
    var (records, tail) := Split(stream);
    match Fold(check, records, 1)
    case Failed(e) => Failure(e)
    case Ended(kind, _) => Success(kind == ResyncRequired)
    case Going(next) => Failure(if tail != [] then PartialRecord else EndedEarly(next > 1))
  }

  /** The first `k` records are accepted and none of them ends the stream. */
  predicate GoOn(check: Check, records: seq<seq<Byte>>, first: int, k: int) {
    && 0 <= k <= |records|
    && forall i :: 0 <= i < k ==>
         check(records[i], first + i).Success? && check(records[i], first + i).value !in {ResyncRequired, Exited}
  }

  lemma {:induction false} FoldAfter(check: Check, records: seq<seq<Byte>>, first: int, k: nat)
    requires GoOn(check, records, first, k)
    ensures Fold(check, records, first) == Fold(check, records[k..], first + k)
    decreases k
  {
    if k > 0 {
      var rest := records[1..];
      assert check(records[0], first + 0).Success? && check(records[0], first + 0).value !in {ResyncRequired, Exited};
      forall i | 0 <= i < k - 1
        ensures var kind := check(rest[i], first + 1 + i);
          kind.Success? && kind.value !in {ResyncRequired, Exited}
      {
        assert rest[i] == records[i + 1] && first + 1 + i == first + (i + 1);
      }
      FoldAfter(check, rest, first + 1, k - 1);
      assert rest[k - 1..] == records[k..];
    } else {
      assert records[0..] == records;
    }
  }

  /** The outcome, case by case: when all records go on it is told by what follows the last newline and by
      whether there was any; otherwise by the first that does not. */
  lemma OutcomeMeans(check: Check, stream: seq<Byte>, k: nat)
    requires GoOn(check, Split(stream).0, 1, k)
    ensures var (records, tail) := Split(stream);
      && (k == |records| ==>
            Outcome(check, stream) == Failure(if tail != [] then PartialRecord else EndedEarly(k > 0)))
      && (k < |records| && check(records[k], k + 1).Failure? ==>
            Outcome(check, stream) == Failure(BadRecord(check(records[k], k + 1).error)))
      && (k < |records| && check(records[k], k + 1) == Success(ResyncRequired) ==>
            Outcome(check, stream) == Success(true))
      && (k < |records| && check(records[k], k + 1) == Success(Exited) ==>
            Outcome(check, stream) == Success(false))
  {
    FoldAfter(check, Split(stream).0, 1, k);
  }

  // ----- The reader ----------------------------------------------------------------------------

  datatype Reader = Reader(buffer: seq<Byte>, expected: int, stopped: Option<Result<Kind, Error>>)

  /** The inner loop: consume every complete record, or stop. */
  function Drain(check: Check, buffer: seq<Byte>, expected: int): Reader
    decreases |buffer|
  {
    var i := FirstNewline(buffer);
    if i == |buffer| then Reader(buffer, expected, None)
    else
      var rest := buffer[i + 1..];
      match check(buffer[..i], expected)
      case Failure(e) => Reader(rest, expected, Some(Failure(BadRecord(e))))
      case Success(kind) =>
        if Ends(kind) then Reader(rest, expected + 1, Some(Success(kind))) else Drain(check, rest, expected + 1)
  }

  function Feed(check: Check, r: Reader, chunk: seq<Byte>): Reader {
    if r.stopped.Some? then r
    else if |r.buffer + chunk| > MAX_DOCUMENT_BYTES then r.(stopped := Some(Failure(RecordTooLong)))
    else Drain(check, r.buffer + chunk, r.expected)
  }

  function FeedAll(check: Check, r: Reader, chunks: seq<seq<Byte>>): Reader
    decreases |chunks|
  {
    if chunks == [] then r else FeedAll(check, Feed(check, r, chunks[0]), chunks[1..])
  }

  function Finish(r: Reader): Result<bool, Error> {
    if r.stopped.Some? && r.stopped.value.Failure? then Failure(r.stopped.value.error)
    else if r.buffer != [] then Failure(PartialRecord)
    else if r.stopped.Some? then Success(r.stopped.value.value == ResyncRequired)
    else Failure(EndedEarly(r.expected > 1))
  }

  const START := Reader([], 1, None)

  function Run(check: Check, chunks: seq<seq<Byte>>): Result<bool, Error> {
    Finish(FeedAll(check, START, chunks))
  }

  /** What checking `line` leads to when `rest` follows it. */
  function AfterLine(check: Check, line: seq<Byte>, rest: seq<Byte>, expected: int): Reader {
    var kind := check(line, expected);
    if kind.Failure? then Reader(rest, expected, Some(Failure(BadRecord(kind.error))))
    else if Ends(kind.value) then Reader(rest, expected + 1, Some(Success(kind.value)))
    else Drain(check, rest, expected + 1)
  }

  /** Draining starts with the line in front. */
  lemma LineByLine(check: Check, s: seq<Byte>, expected: int)
    requires FirstNewline(s) < |s|
    ensures var i := FirstNewline(s); Drain(check, s, expected) == AfterLine(check, s[..i], s[i + 1..], expected)
  {
  }

  lemma LineStays(check: Check, line: seq<Byte>, expected: int)
    requires NEWLINE !in line
    ensures Drain(check, line, expected) == Reader(line, expected, None)
  {
    assert FirstNewline(line) == |line|;
  }

  /** What the inner loop has found out when it stops. */
  datatype Drained = Drained(stdout: seq<Byte>, sequence: int, sawResync: bool, cleanEnd: bool,
                             failure: Option<RecordError>)

  function ReaderAfter(d: Drained): Reader {
    if d.failure.Some? then Reader(d.stdout, d.sequence, Some(Failure(BadRecord(d.failure.value))))
    else ReaderOf(d.stdout, d.sequence, d.sawResync, d.cleanEnd)
  }

  /** One record taken off the buffer: a failure, an end, or nothing yet. */
  function TakeOne(check: Check, line: seq<Byte>, rest: seq<Byte>, sequence: int): Drained {
    match check(line, sequence)
    case Failure(e) => Drained(rest, sequence, false, false, Some(e))
    case Success(kind) => Drained(rest, sequence + 1, kind == ResyncRequired, kind == Exited, None)
  }

  lemma TakeOneDrains(check: Check, stdout: seq<Byte>, sequence: int)
    requires FirstNewline(stdout) < |stdout|
    ensures var i := FirstNewline(stdout);
      var d := TakeOne(check, stdout[..i], stdout[i + 1..], sequence);
      Drain(check, stdout, sequence) ==
      if d.failure.Some? || d.sawResync || d.cleanEnd then ReaderAfter(d) else Drain(check, d.stdout, d.sequence)
  {
    LineByLine(check, stdout, sequence);
  }

  /** The inner loop: take complete records off the buffer until one fails or ends the stream. */
  method DrainLines(check: Check, buffer: seq<Byte>, first: int) returns (d: Drained)
    ensures !(d.sawResync && d.cleanEnd) && d.sequence >= first
    ensures Drain(check, buffer, first) == ReaderAfter(d)
  {
    d := Drained(buffer, first, false, false, None);
    ghost var whole := Drain(check, buffer, first);
    while NEWLINE in d.stdout
      invariant !d.sawResync && !d.cleanEnd && d.failure.None? && d.sequence >= first
      invariant whole == Drain(check, d.stdout, d.sequence)
      decreases |d.stdout|
    {
      TakeOneDrains(check, d.stdout, d.sequence);
      var i := FirstNewline(d.stdout);
      d := TakeOne(check, d.stdout[..i], d.stdout[i + 1..], d.sequence);
      if d.failure.Some? || d.sawResync || d.cleanEnd {
        return;
      }
    }
    LineStays(check, d.stdout, d.sequence);
  }

  function ReaderOf(stdout: seq<Byte>, sequence: int, sawResync: bool, cleanEnd: bool): Reader {
    Reader(stdout, sequence,
           if sawResync then Some(Success(ResyncRequired)) else if cleanEnd then Some(Success(Exited)) else None)
  }

  lemma {:induction false} StoppedStays(check: Check, r: Reader, chunks: seq<seq<Byte>>)
    ensures r.stopped.Some? || chunks == [] ==> FeedAll(check, r, chunks) == r
    decreases |chunks|
  {
    if chunks != [] {
      StoppedStays(check, r, chunks[1..]);
    }
  }

  lemma FeedAllCons(check: Check, r: Reader, chunk: seq<Byte>, rest: seq<seq<Byte>>)
    ensures FeedAll(check, r, [chunk] + rest) == FeedAll(check, Feed(check, r, chunk), rest)
  {
    assert ([chunk] + rest)[1..] == rest;
  }

  lemma {:induction false} FeedAllAppend(check: Check, r: Reader, a: seq<seq<Byte>>, b: seq<seq<Byte>>)
    ensures FeedAll(check, r, a + b) == FeedAll(check, FeedAll(check, r, a), b)
    decreases |a|
  {
    if a == [] {
      assert a + b == b;
    } else {
      assert (a + b)[1..] == a[1..] + b;
      FeedAllAppend(check, Feed(check, r, a[0]), a[1..], b);
    }
  }

  // ----- Draining is the fold --------------------------------------------------------------------

  /** What a drained reader has concluded, in the terms of the fold. */
  function VerdictOf(r: Reader, records: nat): Verdict {
    match r.stopped
    case None => Going(r.expected)
    case Some(Failure(e)) => Failed(e)
    case Some(Success(kind)) => Ended(kind, records)
  }

  lemma {:induction false} DrainFolds(check: Check, s: seq<Byte>, expected: int)
    ensures var (records, tail) := Split(s);
      var r, v := Drain(check, s, expected), Fold(check, records, expected);
      && v == VerdictOf(r, if v.Ended? then v.records else 0)
      && (v.Going? ==> r.buffer == tail)
      && (v.Ended? ==> (r.buffer == [] <==> v.records == 0 && tail == []))
    decreases |s|
  {
    var i := FirstNewline(s);
    if i < |s| {
      var rest := s[i + 1..];
      var (records, tail) := Split(rest);
      var kind := check(s[..i], expected);
      if kind.Success? {
        if Ends(kind.value) {
          SplitEmpty(rest);
        } else {
          DrainFolds(check, rest, expected + 1);
          assert ([s[..i]] + records)[1..] == records;
        }
      }
    }
  }

  lemma SplitEmpty(s: seq<Byte>)
    ensures s == [] <==> |Split(s).0| == 0 && Split(s).1 == []
  {
  }

  // ----- Draining in pieces ------------------------------------------------------------------------

  lemma NewlineInAppend(a: seq<Byte>, b: seq<Byte>)
    requires FirstNewline(a) < |a|
    ensures var i := FirstNewline(a);
      FirstNewline(a + b) == i && (a + b)[..i] == a[..i] && (a + b)[i + 1..] == a[i + 1..] + b
  {
    var i, j := FirstNewline(a), FirstNewline(a + b);
    assert (a + b)[i] == a[i] == NEWLINE;
    assert forall k :: 0 <= k < i ==> (a + b)[k] == a[k];
  }

  /** Draining a prefix and then the rest is draining the whole; a stopped reader keeps the rest. */
  lemma {:induction false} DrainAppend(check: Check, a: seq<Byte>, b: seq<Byte>, expected: int)
    ensures var r := Drain(check, a, expected);
      Drain(check, a + b, expected) ==
      if r.stopped.Some? then r.(buffer := r.buffer + b) else Drain(check, r.buffer + b, r.expected)
    decreases |a|
  {
    var i := FirstNewline(a);
    if i < |a| {
      NewlineInAppend(a, b);
      var kind := check(a[..i], expected);
      if kind.Success? && !Ends(kind.value) {
        DrainAppend(check, a[i + 1..], b, expected + 1);
      }
    }
  }

  /** What is left after draining is no longer than the input and holds no newline unless stopped. */
  lemma {:induction false} DrainLeaves(check: Check, s: seq<Byte>, expected: int)
    ensures var r := Drain(check, s, expected);
      |r.buffer| <= |s| && (r.stopped.None? ==> NEWLINE !in r.buffer)
    decreases |s|
  {
    var i := FirstNewline(s);
    if i < |s| {
      DrainLeaves(check, s[i + 1..], expected + 1);
    }
  }

  function Concat(chunks: seq<seq<Byte>>): seq<Byte> {
    if chunks == [] then [] else chunks[0] + Concat(chunks[1..])
  }

  /** What `os.read` can deliver. */
  predicate AreReads(chunks: seq<seq<Byte>>) {
    forall k :: 0 <= k < |chunks| ==> 1 <= |chunks[k]| <= READ_CHUNK_BYTES
  }

  /** The largest buffer that reads can make of the record in front of `s` stays within the bound, and so
      it does for every record after it that is still looked at. A read can add to a whole record without
      its newline as much as one chunk, or all that is left. */
  predicate Room(check: Check, s: seq<Byte>, expected: int)
    decreases |s|
  {
    var i := FirstNewline(s);
    && Min(i + READ_CHUNK_BYTES, |s|) <= MAX_DOCUMENT_BYTES
    && (i < |s| && Continues(check(s[..i], expected)) ==> Room(check, s[i + 1..], expected + 1))
  }

  predicate Continues(kind: Result<Kind, RecordError>) {
    kind.Success? && !Ends(kind.value)
  }

  /** The record that ends the stream, if there is one, is the last thing in it. */
  predicate NothingAfterEnd(check: Check, stream: seq<Byte>) {
    var (records, tail) := Split(stream);
    var v := Fold(check, records, 1);
    v.Ended? ==> v.records == 0 && tail == []
  }

  /** There is room for records of up to 8 MiB less one read of 16 KiB. */
  lemma {:induction false} ShortRecordsHaveRoom(check: Check, s: seq<Byte>, expected: int)
    requires |Split(s).1| + 16384 <= 8388608
    requires forall i :: 0 <= i < |Split(s).0| ==> |Split(s).0[i]| + 16384 <= 8388608
    ensures Room(check, s, expected)
    decreases |s|
  {
    var i := FirstNewline(s);
    if i < |s| {
      var rest := s[i + 1..];
      assert Split(s).0[0] == s[..i];
      assert forall k :: 0 <= k < |Split(rest).0| ==> Split(rest).0[k] == Split(s).0[k + 1];
      ShortRecordsHaveRoom(check, rest, expected + 1);
    }
  }

  /** What was drained leaves the rest its room. */
  lemma {:induction false} RoomAfter(check: Check, a: seq<Byte>, b: seq<Byte>, expected: int)
    requires Room(check, a + b, expected) && Drain(check, a, expected).stopped.None?
    ensures var r := Drain(check, a, expected); Room(check, r.buffer + b, r.expected)
    decreases |a|
  {
    var i := FirstNewline(a);
    if i < |a| {
      NewlineInAppend(a, b);
      RoomAfter(check, a[i + 1..], b, expected + 1);
    }
  }

  /** A read that is part of the stream does not overflow a buffer that has room. */
  lemma ReadFits(check: Check, buffer: seq<Byte>, chunk: seq<Byte>, rest: seq<Byte>, expected: int)
    requires NEWLINE !in buffer && |chunk| <= READ_CHUNK_BYTES
    requires Room(check, buffer + (chunk + rest), expected)
    ensures |buffer + chunk| <= MAX_DOCUMENT_BYTES
  {
    var s := buffer + (chunk + rest);
    assert forall k :: 0 <= k < |buffer| ==> s[k] == buffer[k] && buffer[k] in buffer;
  }

  /** Up to the point where it stops, the reader is where draining all bytes at once would leave it. */
  lemma {:induction false} FeedAllDrains(check: Check, r: Reader, chunks: seq<seq<Byte>>)
    requires r.stopped.None? && NEWLINE !in r.buffer && AreReads(chunks)
    requires Room(check, r.buffer + Concat(chunks), r.expected)
    ensures Matches(FeedAll(check, r, chunks), Drain(check, r.buffer + Concat(chunks), r.expected))
    decreases |chunks|
  {
    if chunks == [] {
      assert r.buffer + Concat(chunks) == r.buffer;
    } else {
      var chunk, rest := chunks[0], Concat(chunks[1..]);
      ReadFits(check, r.buffer, chunk, rest, r.expected);
      JoinChunks(r.buffer, chunks);
      var next := Drain(check, r.buffer + chunk, r.expected);
      DrainAppend(check, r.buffer + chunk, rest, r.expected);
      if next.stopped.None? {
        DrainLeaves(check, r.buffer + chunk, r.expected);
        RoomAfter(check, r.buffer + chunk, rest, r.expected);
        FeedAllDrains(check, next, chunks[1..]);
      } else {
        StoppedStays(check, next, chunks[1..]);
      }
    }
  }

  /** `r` concludes what `whole` does, with perhaps less left over. */
  predicate Matches(r: Reader, whole: Reader) {
    r.stopped == whole.stopped && |r.buffer| <= |whole.buffer| && (whole.stopped.None? ==> r == whole)
  }

  lemma JoinChunks(before: seq<Byte>, chunks: seq<seq<Byte>>)
    requires chunks != []
    ensures before + Concat(chunks) == (before + chunks[0]) + Concat(chunks[1..])
    ensures before + Concat(chunks) == before + (chunks[0] + Concat(chunks[1..]))
  {
  }

  /** Draining the whole stream and stopping there concludes what the fold does. */
  lemma DrainConcludes(check: Check, stream: seq<Byte>)
    requires NothingAfterEnd(check, stream)
    ensures var whole := Drain(check, stream, 1);
      && Finish(whole) == Outcome(check, stream)
      && (whole.stopped.Some? && whole.stopped.value.Success? ==> whole.buffer == [])
  {
    DrainFolds(check, stream, 1);
  }

  lemma FinishAgrees(r: Reader, whole: Reader)
    requires Matches(r, whole)
    requires whole.stopped.Some? && whole.stopped.value.Success? ==> whole.buffer == []
    ensures Finish(r) == Finish(whole)
  {
  }

  /** However the reads are split, the outcome is that of the fold over the records. */
  lemma ChunkingIsIrrelevant(check: Check, chunks: seq<seq<Byte>>)
    requires AreReads(chunks) && Room(check, Concat(chunks), 1) && NothingAfterEnd(check, Concat(chunks))
    ensures Run(check, chunks) == Outcome(check, Concat(chunks))
  {
    var stream := Concat(chunks);
    assert [] + stream == stream;
    FeedAllDrains(check, START, chunks);
    DrainConcludes(check, stream);
    FinishAgrees(FeedAll(check, START, chunks), Drain(check, stream, 1));
  }

  // ----- What success means, whatever the stream ---------------------------------------------------------

  /** A reader that stops with success has seen what draining the whole stream sees. */
  lemma {:induction false} SuccessDrains(check: Check, r: Reader, chunks: seq<seq<Byte>>)
    requires r.stopped.None?
    requires var end := FeedAll(check, r, chunks).stopped; end.Some? && end.value.Success?
    ensures Drain(check, r.buffer + Concat(chunks), r.expected).stopped == FeedAll(check, r, chunks).stopped
    decreases |chunks|
  {
    var next, rest := Feed(check, r, chunks[0]), chunks[1..];
    StoppedStays(check, next, rest);
    JoinChunks(r.buffer, chunks);
    DrainAppend(check, r.buffer + chunks[0], Concat(rest), r.expected);
    if next.stopped.None? {
      SuccessDrains(check, next, rest);
    }
  }

  /** A success is the end the fold finds. */
  lemma SuccessFolds(check: Check, chunks: seq<seq<Byte>>)
    requires Run(check, chunks).Success?
    ensures var v := Fold(check, Split(Concat(chunks)).0, 1);
      v.Ended? && Ends(v.kind) && Run(check, chunks).value == (v.kind == ResyncRequired)
  {
    SuccessDrains(check, START, chunks);
    assert [] + Concat(chunks) == Concat(chunks);
    DrainFolds(check, Concat(chunks), 1);
    FoldEnds(check, Split(Concat(chunks)).0, 1);
  }

  lemma {:induction false} FoldEnds(check: Check, records: seq<seq<Byte>>, first: int)
    ensures Fold(check, records, first).Ended? ==> Ends(Fold(check, records, first).kind)
    ensures Fold(check, records, first).Failed? ==> Fold(check, records, first).error.BadRecord?
    decreases |records|
  {
    if records != [] {
      FoldEnds(check, records[1..], first + 1);
    }
  }
}
