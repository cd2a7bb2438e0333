/** When the outcome of a subscription depends on how its reads are split. */
module ReadSplits {
  import opened Basics
  import opened Wrappers
  import opened RecordReader

  function Singles(s: seq<Byte>): seq<seq<Byte>> {
    if s == [] then [] else [[s[0]]] + Singles(s[1..])
  }

  lemma {:induction false} SinglesSpell(s: seq<Byte>)
    ensures AreReads(Singles(s)) && Concat(Singles(s)) == s
  {
    if s != [] {
      SinglesSpell(s[1..]);
      assert Singles(s)[1..] == Singles(s[1..]);
    }
  }

  /** One line in front of anything. */
  lemma LineFirst(check: Check, line: seq<Byte>, rest: seq<Byte>, expected: int)
    requires NEWLINE !in line
    ensures Drain(check, line + ([NEWLINE] + rest), expected) ==
            AfterLine(check, line, rest, expected)
  {
    var s := line + ([NEWLINE] + rest);
    FirstNewlineAfter(line, rest);
    assert s[..|line|] == line && s[|line| + 1..] == rest;
  }

  lemma FirstNewlineAfter(line: seq<Byte>, rest: seq<Byte>)
    requires NEWLINE !in line
    ensures FirstNewline(line + ([NEWLINE] + rest)) == |line|
  {
    var s := line + ([NEWLINE] + rest);
    assert s[|line|] == NEWLINE;
    assert forall k :: 0 <= k < |line| ==> s[k] == line[k] && line[k] in line;
  }

  lemma SplitAtNewline(s: seq<Byte>)
    requires FirstNewline(s) < |s|
    ensures var i := FirstNewline(s); NEWLINE !in s[..i] && s == s[..i] + ([NEWLINE] + s[i + 1..])
  {
    var i := FirstNewline(s);
    assert s[i..] == [NEWLINE] + s[i + 1..];
    assert s == s[..i] + s[i..];
  }

  lemma JoinLines(line: seq<Byte>, tail: seq<Byte>, rest: seq<Byte>)
    ensures line + ([NEWLINE] + (tail + ([NEWLINE] + rest))) == line + ([NEWLINE] + tail) + ([NEWLINE] + rest)
  {
  }

  /** A reader cannot stop without consuming a newline. */
  lemma StopsShorter(check: Check, s: seq<Byte>, expected: int)
    requires Drain(check, s, expected).stopped.Some?
    ensures FirstNewline(s) < |s| && |Drain(check, s, expected).buffer| < |s|
  {
    var i := FirstNewline(s);
    assert i < |s|;
    DrainLeaves(check, s[i + 1..], expected + 1);
  }

  /** `head` is everything before the newline of the record that ends `s`. */
  predicate IsCut(check: Check, s: seq<Byte>, head: seq<Byte>, expected: int) {
    s == head + ([NEWLINE] + Drain(check, s, expected).buffer) && Drain(check, head, expected).stopped.None?
  }

  lemma CutHere(check: Check, line: seq<Byte>, rest: seq<Byte>, expected: int)
    requires NEWLINE !in line && check(line, expected).Success? && Ends(check(line, expected).value)
    ensures IsCut(check, line + ([NEWLINE] + rest), line, expected)
  {
    LineFirst(check, line, rest, expected);
    LineStays(check, line, expected);
  }

  lemma CutLater(check: Check, line: seq<Byte>, rest: seq<Byte>, tail: seq<Byte>, expected: int)
    requires NEWLINE !in line && Continues(check(line, expected)) && IsCut(check, rest, tail, expected + 1)
    ensures IsCut(check, line + ([NEWLINE] + rest), line + ([NEWLINE] + tail), expected)
  {
    LineFirst(check, line, rest, expected);
    LineFirst(check, line, tail, expected);
    JoinLines(line, tail, Drain(check, rest, expected + 1).buffer);
  }

  lemma {:induction false} DrainCut(check: Check, s: seq<Byte>, expected: int) returns (head: seq<Byte>)
    requires Drain(check, s, expected).stopped.Some? && Drain(check, s, expected).stopped.value.Success?
    ensures IsCut(check, s, head, expected)
    decreases |s|
  {
    var i := FirstNewline(s);
    StopsShorter(check, s, expected);
    SplitAtNewline(s);
    LineByLine(check, s, expected);
    var line, rest := s[..i], s[i + 1..];
    if Ends(check(line, expected).value) {
      CutHere(check, line, rest, expected);
      head := line;
    } else {
      var tail := DrainCut(check, rest, expected + 1);
      CutLater(check, line, rest, tail, expected);
      head := line + ([NEWLINE] + tail);
    }
  }

  /** If draining stops in front of all that follows a line, the line is the record that ends the stream. */
  lemma LineEnds(check: Check, line: seq<Byte>, after: seq<Byte>, expected: int)
    requires NEWLINE !in line
    requires var r := Drain(check, line + ([NEWLINE] + after), expected);
      r.stopped.Some? && r.stopped.value.Success? && r.buffer == after
    ensures check(line, expected).Success? && Ends(check(line, expected).value)
  {
    LineFirst(check, line, after, expected);
    if Continues(check(line, expected)) {
      StopsShorter(check, after, expected + 1);
    }
  }

  /** The ending record, completed by its newline, with some bytes read along with it. */
  lemma EndingRecordStops(check: Check, head: seq<Byte>, after: seq<Byte>, some: seq<Byte>)
    requires Drain(check, head, 1).stopped.None?
    requires var whole := Drain(check, head + ([NEWLINE] + after), 1);
      whole.stopped.Some? && whole.stopped.value.Success? && whole.buffer == after
    ensures var r := Drain(check, head, 1);
      var next := Drain(check, r.buffer + ([NEWLINE] + some), r.expected);
      next.stopped.Some? && next.stopped.value.Success? && next.buffer == some
  {
    var r := Drain(check, head, 1);
    DrainLeaves(check, head, 1);
    DrainAppend(check, head, [NEWLINE] + after, 1);
    LineEnds(check, r.buffer, after, r.expected);
    LineFirst(check, r.buffer, some, r.expected);
  }

  lemma Regroup(x: seq<Byte>, y: seq<Byte>, z: seq<Byte>)
    ensures x + (y + z) == (x + y) + z
  {
  }

  lemma {:induction false} ConcatAppend(a: seq<seq<Byte>>, b: seq<seq<Byte>>)
    ensures Concat(a + b) == Concat(a) + Concat(b)
  {
    if a == [] {
      assert a + b == b;
    } else {
      ConcatAppend(a[1..], b);
      assert (a + b)[1..] == a[1..] + b;
      Regroup(a[0], Concat(a[1..]), Concat(b));
    }
  }

  lemma {:induction false} RoomPrefix(check: Check, a: seq<Byte>, b: seq<Byte>, expected: int)
    requires Room(check, a + b, expected)
    ensures Room(check, a, expected)
    decreases |a|
  {
    var i := FirstNewline(a);
    if i < |a| {
      NewlineInAppend(a, b);
      if Continues(check(a[..i], expected)) {
        RoomPrefix(check, a[i + 1..], b, expected + 1);
      }
    } else {
      assert a + ([] + b) == a + b;
      ReadFits(check, a, [], b, expected);
    }
  }

  /** Single bytes, except that the ending newline is read together with the byte after it. */
  function Straddling(head: seq<Byte>, after: seq<Byte>): seq<seq<Byte>>
    requires after != []
  {
    Singles(head) + ([[NEWLINE] + [after[0]]] + Singles(after[1..]))
  }

  lemma ReadsFirst(chunk: seq<Byte>, rest: seq<Byte>)
    requires 1 <= |chunk| <= READ_CHUNK_BYTES
    ensures var chunks := [chunk] + Singles(rest); AreReads(chunks) && Concat(chunks) == chunk + rest
  {
    SinglesSpell(rest);
    assert ([chunk] + Singles(rest))[1..] == Singles(rest);
  }

  lemma StraddlingSpells(head: seq<Byte>, after: seq<Byte>)
    requires after != []
    ensures AreReads(Straddling(head, after)) && Concat(Straddling(head, after)) == head + ([NEWLINE] + after)
  {
    var pair := [NEWLINE] + [after[0]];
    SinglesSpell(head);
    ReadsFirst(pair, after[1..]);
    ConcatAppend(Singles(head), [pair] + Singles(after[1..]));
    PairSplits(after);
  }

  /** Reading the byte after the ending record together with it turns success into a partial record. */
  lemma StraddlingFails(check: Check, head: seq<Byte>, after: seq<Byte>)
    requires after != [] && Room(check, head + ([NEWLINE] + after), 1) && Drain(check, head, 1).stopped.None?
    requires var whole := Drain(check, head + ([NEWLINE] + after), 1);
      whole.stopped.Some? && whole.stopped.value.Success? && whole.buffer == after
    ensures Run(check, Straddling(head, after)) == Failure(PartialRecord)
  {
    var pair := [NEWLINE] + [after[0]];
    PairSplits(after);
    SinglesDrain(check, head, pair, after[1..]);
    PairStops(check, head, after);
    StopsWithRest(check, Singles(head), pair, Singles(after[1..]));
  }

  lemma PairSplits(after: seq<Byte>)
    requires after != []
    ensures [NEWLINE] + after == ([NEWLINE] + [after[0]]) + after[1..]
  {
  }

  lemma PairStops(check: Check, head: seq<Byte>, after: seq<Byte>)
    requires after != [] && Drain(check, head, 1).stopped.None?
    requires |Drain(check, head, 1).buffer + ([NEWLINE] + [after[0]])| <= MAX_DOCUMENT_BYTES
    requires var whole := Drain(check, head + ([NEWLINE] + after), 1);
      whole.stopped.Some? && whole.stopped.value.Success? && whole.buffer == after
    ensures var next := Feed(check, Drain(check, head, 1), [NEWLINE] + [after[0]]);
      next.stopped.Some? && next.stopped.value.Success? && next.buffer != []
  {
    EndingRecordStops(check, head, after, [after[0]]);
  }

  lemma StopsWithRest(check: Check, before: seq<seq<Byte>>, chunk: seq<Byte>, after: seq<seq<Byte>>)
    requires var next := Feed(check, FeedAll(check, START, before), chunk);
      next.stopped.Some? && next.stopped.value.Success? && next.buffer != []
    ensures Run(check, before + ([chunk] + after)) == Failure(PartialRecord)
  {
    var r := FeedAll(check, START, before);
    FeedAllAppend(check, START, before, [chunk] + after);
    FeedAllCons(check, r, chunk, after);
    StoppedStays(check, Feed(check, r, chunk), after);
  }

  /** Byte by byte the reader gets to where draining `head` leads, with room for the next read. */
  lemma SinglesDrain(check: Check, head: seq<Byte>, chunk: seq<Byte>, rest: seq<Byte>)
    requires Room(check, head + (chunk + rest), 1) && Drain(check, head, 1).stopped.None?
    requires |chunk| <= READ_CHUNK_BYTES
    ensures FeedAll(check, START, Singles(head)) == Drain(check, head, 1)
    ensures |Drain(check, head, 1).buffer + chunk| <= MAX_DOCUMENT_BYTES
  {
    var r := Drain(check, head, 1);
    RoomPrefix(check, head, chunk + rest, 1);
    SinglesSpell(head);
    assert [] + head == head;
    FeedAllDrains(check, START, Singles(head));
    DrainLeaves(check, head, 1);
    RoomAfter(check, head, chunk + rest, 1);
    ReadFits(check, r.buffer, chunk, rest, r.expected);
  }

  // ----- A record too long for some reads ----------------------------------------------------------------

  /** Single bytes of a record collect in the buffer until they pass the bound. */
  lemma {:induction false} SinglesFill(check: Check, got: seq<Byte>, line: seq<Byte>, expected: int)
    requires NEWLINE !in got && NEWLINE !in line && |got| <= MAX_DOCUMENT_BYTES
    ensures var r := FeedAll(check, Reader(got, expected, None), Singles(line));
      if |got + line| <= MAX_DOCUMENT_BYTES then r == Reader(got + line, expected, None)
      else r.stopped == Some(Failure(RecordTooLong))
    decreases |line|
  {
    if line == [] {
      assert got + line == got;
    } else {
      var more := got + [line[0]];
      assert got + line == more + line[1..];
      assert Singles(line)[1..] == Singles(line[1..]);
      var next := Feed(check, Reader(got, expected, None), [line[0]]);
      if |more| <= MAX_DOCUMENT_BYTES {
        LineStays(check, more, expected);
        SinglesFill(check, more, line[1..], expected);
      } else {
        StoppedStays(check, next, Singles(line[1..]));
      }
    }
  }

  /** The newline that completes a record which neither fails nor ends the stream. */
  lemma NewlineCompletes(check: Check, line: seq<Byte>, expected: int)
    requires NEWLINE !in line && |line| < MAX_DOCUMENT_BYTES && Continues(check(line, expected))
    ensures Feed(check, Reader(line, expected, None), [NEWLINE]) == Reader([], expected + 1, None)
  {
    LineFirst(check, line, [], expected);
    assert line + ([NEWLINE] + []) == line + [NEWLINE];
    LineStays(check, [], expected + 1);
  }

  lemma SinglesLine(check: Check, line: seq<Byte>, expected: int)
    requires NEWLINE !in line && |line| <= MAX_DOCUMENT_BYTES
    ensures FeedAll(check, Reader([], expected, None), Singles(line)) == Reader(line, expected, None)
  {
    SinglesFill(check, [], line, expected);
    assert [] + line == line;
  }

  /** One whole record, byte by byte. */
  lemma SinglesRecord(check: Check, line: seq<Byte>, expected: int)
    requires NEWLINE !in line && |line| < MAX_DOCUMENT_BYTES && Continues(check(line, expected))
    ensures FeedAll(check, Reader([], expected, None), Singles(line) + [[NEWLINE]]) == Reader([], expected + 1, None)
  {
    var none: seq<seq<Byte>> := [];
    SinglesLine(check, line, expected);
    FeedAllAppend(check, Reader([], expected, None), Singles(line), [[NEWLINE]]);
    assert [[NEWLINE]] == [[NEWLINE]] + none;
    FeedAllCons(check, Reader(line, expected, None), [NEWLINE], none);
    NewlineCompletes(check, line, expected);
  }

  /** Where there is no room, some reads overflow the buffer. */
  lemma {:induction false} Overflowing(check: Check, s: seq<Byte>, expected: int) returns (chunks: seq<seq<Byte>>)
    requires !Room(check, s, expected)
    ensures AreReads(chunks) && Concat(chunks) == s
    ensures FeedAll(check, Reader([], expected, None), chunks).stopped == Some(Failure(RecordTooLong))
    decreases |s|
  {
    var i := FirstNewline(s);
    if Min(i + READ_CHUNK_BYTES, |s|) > MAX_DOCUMENT_BYTES {
      chunks := OverflowingHere(check, s, i, expected);
    } else {
      var line, rest := s[..i], s[i + 1..];
      SplitAtNewline(s);
      var more := Overflowing(check, rest, expected + 1);
      RecordFirst(check, line, more, expected);
      RecordSpells(line, more);
      chunks := (Singles(line) + [[NEWLINE]]) + more;
    }
  }

  /** A whole record, byte by byte, in front of other reads. */
  lemma RecordFirst(check: Check, line: seq<Byte>, more: seq<seq<Byte>>, expected: int)
    requires NEWLINE !in line && |line| < MAX_DOCUMENT_BYTES && Continues(check(line, expected))
    ensures FeedAll(check, Reader([], expected, None), (Singles(line) + [[NEWLINE]]) + more) ==
            FeedAll(check, Reader([], expected + 1, None), more)
  {
    SinglesRecord(check, line, expected);
    FeedAllAppend(check, Reader([], expected, None), Singles(line) + [[NEWLINE]], more);
  }

  lemma RecordSpells(line: seq<Byte>, more: seq<seq<Byte>>)
    requires AreReads(more)
    ensures var chunks := (Singles(line) + [[NEWLINE]]) + more;
      AreReads(chunks) && Concat(chunks) == line + ([NEWLINE] + Concat(more))
  {
    SinglesSpell(line);
    SinglesSpell([]);
    ConcatAppend(Singles(line), [[NEWLINE]]);
    ReadsFirst([NEWLINE], []);
    assert [[NEWLINE]] + Singles([]) == [[NEWLINE]] && [NEWLINE] + [] == [NEWLINE];
    ConcatAppend(Singles(line) + [[NEWLINE]], more);
    Regroup(line, [NEWLINE], Concat(more));
  }

  /** The record in front, byte by byte, and then as large a read as there can be. */
  lemma OverflowingHere(check: Check, s: seq<Byte>, i: nat, expected: int) returns (chunks: seq<seq<Byte>>)
    requires i == FirstNewline(s) && Min(i + READ_CHUNK_BYTES, |s|) > MAX_DOCUMENT_BYTES
    ensures AreReads(chunks) && Concat(chunks) == s
    ensures FeedAll(check, Reader([], expected, None), chunks).stopped == Some(Failure(RecordTooLong))
  {
    if i == |s| {
      chunks := Singles(s);
      SinglesSpell(s);
      SinglesFill(check, [], s, expected);
      assert [] + s == s;
    } else {
      var end := Min(i + READ_CHUNK_BYTES, |s|);
      var line, chunk, rest := s[..i], s[i..end], s[end..];
      chunks := Singles(line) + ([chunk] + Singles(rest));
      LargeRead(check, line, chunk, rest, expected);
      LargeReadSpells(line, chunk, rest);
      ThreeParts(s, i, end);
    }
  }

  lemma ThreeParts(s: seq<Byte>, i: nat, j: nat)
    requires i <= j <= |s|
    ensures s[..i] + (s[i..j] + s[j..]) == s
  {
  }

  lemma LargeReadSpells(line: seq<Byte>, chunk: seq<Byte>, rest: seq<Byte>)
    requires 1 <= |chunk| <= READ_CHUNK_BYTES
    ensures var chunks := Singles(line) + ([chunk] + Singles(rest));
      AreReads(chunks) && Concat(chunks) == line + (chunk + rest)
  {
    SinglesSpell(line);
    ReadsFirst(chunk, rest);
    ConcatAppend(Singles(line), [chunk] + Singles(rest));
  }

  lemma LargeRead(check: Check, line: seq<Byte>, chunk: seq<Byte>, rest: seq<Byte>, expected: int)
    requires NEWLINE !in line && |line| + |chunk| > MAX_DOCUMENT_BYTES
    ensures var chunks := Singles(line) + ([chunk] + Singles(rest));
      FeedAll(check, Reader([], expected, None), chunks).stopped == Some(Failure(RecordTooLong))
  {
    var start, more := Reader([], expected, None), [chunk] + Singles(rest);
    SinglesFill(check, [], line, expected);
    assert [] + line == line;
    FeedAllAppend(check, start, Singles(line), more);
    if |line| <= MAX_DOCUMENT_BYTES {
      FeedAllCons(check, Reader(line, expected, None), chunk, Singles(rest));
      StoppedStays(check, Feed(check, Reader(line, expected, None), chunk), Singles(rest));
    } else {
      StoppedStays(check, FeedAll(check, start, Singles(line)), more);
    }
  }

  // ----- The exact condition ---------------------------------------------------------------------------

  ghost predicate EverySplitFolds(check: Check, stream: seq<Byte>) {
    forall chunks :: AreReads(chunks) && Concat(chunks) == stream ==> Run(check, chunks) == Outcome(check, stream)
  }

  /** Every way of splitting the reads gives the outcome of the fold exactly when nothing follows the
      record that ends the stream and every record that is looked at has room. */
  lemma EverySplitFoldsIff(check: Check, stream: seq<Byte>)
    ensures EverySplitFolds(check, stream) <==> NothingAfterEnd(check, stream) && Room(check, stream, 1)
  {
    if !Room(check, stream, 1) {
      var chunks := Overflowing(check, stream, 1);
      FoldEnds(check, Split(stream).0, 1);
      assert Run(check, chunks) == Failure(RecordTooLong) != Outcome(check, stream);
    } else if NothingAfterEnd(check, stream) {
      forall chunks | AreReads(chunks) && Concat(chunks) == stream
        ensures Run(check, chunks) == Outcome(check, stream)
      {
        ChunkingIsIrrelevant(check, chunks);
      }
    } else {
      TrailingBytesDiffer(check, stream);
    }
  }

  lemma TrailingBytesDiffer(check: Check, stream: seq<Byte>)
    requires Room(check, stream, 1) && !NothingAfterEnd(check, stream)
    ensures !EverySplitFolds(check, stream)
  {
    DrainFolds(check, stream, 1);
    var head := DrainCut(check, stream, 1);
    var after := Drain(check, stream, 1).buffer;
    StraddlingSpells(head, after);
    StraddlingFails(check, head, after);
    assert AreReads(Straddling(head, after)) && Outcome(check, stream).Success?;
  }

  // ----- Two streams whose outcome depends on the reads ---------------------------------------------------

  /** A record one byte below the bound: whether its newline comes with the next byte decides. */
  lemma OversizedSplits(check: Check, line: seq<Byte>, b: Byte) returns (chunks: seq<seq<Byte>>)
    requires |line| == MAX_DOCUMENT_BYTES - 1 && NEWLINE !in line && b != NEWLINE && Continues(check(line, 1))
    ensures var stream := line + ([NEWLINE] + [b]);
      && NothingAfterEnd(check, stream)
      && AreReads(chunks) && Concat(chunks) == stream && Run(check, chunks) == Failure(RecordTooLong)
      && AreReads(Singles(stream)) && Concat(Singles(stream)) == stream
      && Run(check, Singles(stream)) == Failure(PartialRecord) == Outcome(check, stream)
  {
    var stream := line + ([NEWLINE] + [b]);
    LongStream(check, line, [b]);
    LongRun(check, line, [b]);
    SinglesSpell(stream);
    chunks := Overflowing(check, stream, 1);
  }

  lemma LongStream(check: Check, line: seq<Byte>, last: seq<Byte>)
    requires |line| == MAX_DOCUMENT_BYTES - 1 && NEWLINE !in line && Continues(check(line, 1))
    requires |last| == 1 && NEWLINE !in last
    ensures var stream := line + ([NEWLINE] + last);
      && NothingAfterEnd(check, stream) && !Room(check, stream, 1)
      && Outcome(check, stream) == Failure(PartialRecord)
  {
    FirstNewlineAfter(line, last);
    SplitFirst(line, last);
    assert Split(last) == ([], last);
    assert Fold(check, [line], 1) == Going(2) by {
      assert [line][1..] == [];
    }
  }

  lemma LongRun(check: Check, line: seq<Byte>, last: seq<Byte>)
    requires |line| < MAX_DOCUMENT_BYTES && NEWLINE !in line && Continues(check(line, 1))
    requires |last| == 1 && NEWLINE !in last
    ensures Run(check, Singles(line + ([NEWLINE] + last))) == Failure(PartialRecord)
  {
    RecordFirst(check, line, Singles(last), 1);
    SinglesLine(check, last, 2);
    SinglesOfRecord(line, last);
  }

  lemma SinglesOfRecord(line: seq<Byte>, last: seq<Byte>)
    ensures Singles(line + ([NEWLINE] + last)) == (Singles(line) + [[NEWLINE]]) + Singles(last)
  {
    SinglesAppend(line, [NEWLINE] + last);
    SinglesAppend([NEWLINE], last);
    assert Singles([NEWLINE]) == [[NEWLINE]];
  }

  lemma SplitFirst(line: seq<Byte>, rest: seq<Byte>)
    requires NEWLINE !in line
    ensures Split(line + ([NEWLINE] + rest)) == ([line] + Split(rest).0, Split(rest).1)
  {
    FirstNewlineAfter(line, rest);
    LineParts(line, rest);
  }

  lemma LineParts(line: seq<Byte>, rest: seq<Byte>)
    ensures var s := line + ([NEWLINE] + rest); s[..|line|] == line && s[|line| + 1..] == rest
  {
  }

  lemma {:induction false} SinglesAppend(a: seq<Byte>, b: seq<Byte>)
    ensures Singles(a + b) == Singles(a) + Singles(b)
  {
    if a == [] {
      assert a + b == b;
    } else {
      assert (a + b)[1..] == a[1..] + b;
      SinglesAppend(a[1..], b);
    }
  }

  function Apart(line: seq<Byte>, b: Byte): seq<seq<Byte>> {
    [line] + ([[NEWLINE]] + Singles([b]))
  }

  function Together(line: seq<Byte>, b: Byte): seq<seq<Byte>> {
    [line] + ([[NEWLINE] + [b]] + Singles([]))
  }

  lemma BothSpell(line: seq<Byte>, b: Byte)
    requires 1 <= |line| <= READ_CHUNK_BYTES
    ensures AreReads(Apart(line, b)) && Concat(Apart(line, b)) == line + ([NEWLINE] + [b])
    ensures AreReads(Together(line, b)) && Concat(Together(line, b)) == line + ([NEWLINE] + [b])
  {
    ReadsFirst([NEWLINE], [b]);
    ReadsFirst([NEWLINE] + [b], []);
    assert Apart(line, b)[1..] == [[NEWLINE]] + Singles([b]);
    assert Together(line, b)[1..] == [[NEWLINE] + [b]] + Singles([]);
    assert ([NEWLINE] + [b]) + [] == [NEWLINE] + [b];
  }

  /** A byte after the ending record: whether it comes along with the newline decides. */
  lemma TrailingByteSplits(check: Check, line: seq<Byte>, b: Byte)
    requires NEWLINE !in line && 1 <= |line| <= READ_CHUNK_BYTES
    requires check(line, 1).Success? && Ends(check(line, 1).value)
    ensures Run(check, Apart(line, b)) == Success(check(line, 1).value == ResyncRequired)
    ensures Run(check, Together(line, b)) == Failure(PartialRecord)
  {
    var held := Reader(line, 1, None);
    LineStays(check, line, 1);
    assert [] + line == line;
    FeedAllCons(check, START, line, [[NEWLINE]] + Singles([b]));
    FeedAllCons(check, held, [NEWLINE], Singles([b]));
    LineFirst(check, line, [], 1);
    assert line + ([NEWLINE] + []) == line + [NEWLINE];
    StoppedStays(check, Feed(check, held, [NEWLINE]), Singles([b]));
    FeedAllCons(check, START, line, [[NEWLINE] + [b]] + Singles([]));
    FeedAllCons(check, held, [NEWLINE] + [b], Singles([]));
    LineFirst(check, line, [b], 1);
    StoppedStays(check, Feed(check, held, [NEWLINE] + [b]), Singles([]));
  }
}
