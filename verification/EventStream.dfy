/** The terminal subscription: what one event must say, and what a successful stream has said. */
module EventStream {
  import opened Basics
  import opened Wrappers
  import opened ReadSplits
  import opened RecordReader

  const EVENT_SCHEMA := "splinterm.cli.event.v2"

  // ----- One event -------------------------------------------------------------------------

  /** The fields of a decoded event. `wellShaped` stands for the checks on the payload of its kind. */
  datatype Event = Event(
    schema: string, subscriptionId: string, sequence: int, stream: string, kind: Option<Kind>,
    splintId: string, incarnation: int, wellShaped: bool)

  /** What is subscribed to, and how a record decodes. */
  datatype Subscription = Subscription(splintId: string, incarnation: int, parse: seq<Byte> -> Option<Event>)

  function ValidateEvent(event: Event, expected: int, sub: Subscription): Result<Kind, RecordError> {
    if event.schema != EVENT_SCHEMA then Failure(BadSchema)
    else if event.subscriptionId != "1" || event.sequence != expected then Failure(BadShape)
    else if event.stream != "terminal" || event.kind.None? then Failure(BadShape)
    else if event.splintId != sub.splintId || event.incarnation != sub.incarnation then Failure(ChangedIdentity)
    else if !event.wellShaped then Failure(BadShape)
    else Success(event.kind.value)
  }

  /** The record decodes as an event with this number of the terminal subscription. */
  predicate IsTerminalEvent(sub: Subscription, record: seq<Byte>, number: int) {
    && record != []
    && sub.parse(record).Some?
    && var event := sub.parse(record).value;
       && event.schema == "splinterm.cli.event.v2" && event.subscriptionId == "1" && event.stream == "terminal"
       && event.sequence == number && event.kind.Some?
  }

  /** ... which is well formed and about the subscribed incarnation. */
  predicate IsEvent(sub: Subscription, record: seq<Byte>, number: int) {
    && IsTerminalEvent(sub, record, number)
    && var event := sub.parse(record).value;
       event.splintId == sub.splintId && event.incarnation == sub.incarnation && event.wellShaped
  }

  /** One record, without its newline. Exactly the events of the incarnation that do not revoke the access are
      accepted, each as its kind, and every other record is refused for its first fault. */
  function CheckRecord(sub: Subscription, record: seq<Byte>, expected: int): (r: Result<Kind, RecordError>)
    ensures r.Success? <==>
      IsEvent(sub, record, expected) && sub.parse(record).value.kind != Some(AccessRevoked)
    ensures r.Success? ==> sub.parse(record).value.kind == Some(r.value)
    ensures r == Failure(EmptyRecord) <==> record == []
    ensures r == Failure(InvalidJson) <==> record != [] && sub.parse(record).None?
    ensures r == Failure(BadSchema) <==>
      record != [] && sub.parse(record).Some? && sub.parse(record).value.schema != "splinterm.cli.event.v2"
    ensures r == Failure(ChangedIdentity) <==>
      && IsTerminalEvent(sub, record, expected)
      && var event := sub.parse(record).value;
         event.splintId != sub.splintId || event.incarnation != sub.incarnation
    ensures r == Failure(Revoked) <==>
      IsEvent(sub, record, expected) && sub.parse(record).value.kind == Some(AccessRevoked)
  {
    if record == [] then Failure(EmptyRecord)
    else
      match sub.parse(record)
      case None => Failure(InvalidJson)
      case Some(event) =>
        match ValidateEvent(event, expected, sub)
        case Failure(e) => Failure(e)
        case Success(kind) => if kind == AccessRevoked then Failure(Revoked) else Success(kind)
  }

  function Checker(sub: Subscription): Check {
    (record, expected) => CheckRecord(sub, record, expected)
  }

  // ----- What success means ----------------------------------------------------------------------------

  /** The first `k` records are consecutive events, snapshots and updates and then one of the given kind. */
  predicate Numbered(sub: Subscription, records: seq<seq<Byte>>, first: int, k: int, last: Kind) {
    && 1 <= k <= |records|
    && (forall i :: 0 <= i < k ==> IsEvent(sub, records[i], first + i))
    && (forall i :: 0 <= i < k - 1 ==> sub.parse(records[i]).value.kind in {Some(Snapshot), Some(Update)})
    && sub.parse(records[k - 1]).value.kind == Some(last)
  }

  lemma NumberedOneMore(sub: Subscription, records: seq<seq<Byte>>, first: int, k: int, last: Kind)
    requires records != [] && IsEvent(sub, records[0], first)
    requires sub.parse(records[0]).value.kind in {Some(Snapshot), Some(Update)}
    requires Numbered(sub, records[1..], first + 1, k, last)
    ensures Numbered(sub, records, first, k + 1, last)
  {
    var rest := records[1..];
    forall i | 0 <= i < k + 1
      ensures IsEvent(sub, records[i], first + i)
      ensures i < k ==> sub.parse(records[i]).value.kind in {Some(Snapshot), Some(Update)}
    {
      if i > 0 {
        assert records[i] == rest[i - 1];
        assert IsEvent(sub, rest[i - 1], first + 1 + (i - 1));
      }
    }
    assert records[k] == rest[k - 1];
  }

  lemma {:induction false} FoldSuccess(sub: Subscription, records: seq<seq<Byte>>, first: int)
    requires Fold(Checker(sub), records, first).Ended?
    ensures var v := Fold(Checker(sub), records, first);
      v.records < |records| && Numbered(sub, records, first, |records| - v.records, v.kind)
    decreases |records|
  {
    var kind := CheckRecord(sub, records[0], first).value;
    if !Ends(kind) {
      var v := Fold(Checker(sub), records, first);
      FoldSuccess(sub, records[1..], first + 1);
      NumberedOneMore(sub, records, first, |records| - 1 - v.records, v.kind);
    }
  }

  /** Whatever the stream and however it is read, success has seen events 1..k of one splint and one
      incarnation, snapshots and updates and then the record that asks for the resynchronisation or reports
      the exit; the returned value says which. */
  lemma SuccessMeansNumberedEvents(sub: Subscription, chunks: seq<seq<Byte>>)
    requires Run(Checker(sub), chunks).Success?
    ensures var records := Split(Concat(chunks)).0;
      var v := Fold(Checker(sub), records, 1);
      && v.Ended? && v.records < |records|
      && Numbered(sub, records, 1, |records| - v.records,
                  if Run(Checker(sub), chunks).value then ResyncRequired else Exited)
  {
    SuccessFolds(Checker(sub), chunks);
    FoldSuccess(sub, Split(Concat(chunks)).0, 1);
  }

  // ----- What succeeds ---------------------------------------------------------------------------------

  /** Consecutive events are folded up to the first that asks for a resynchronisation or reports the exit. */
  lemma {:induction false} NumberedFolds(sub: Subscription, records: seq<seq<Byte>>, first: int, k: int, last: Kind)
    requires Numbered(sub, records, first, k, last) && (last == ResyncRequired || last == Exited)
    ensures Fold(Checker(sub), records, first) == Ended(last, |records| - k)
    decreases k
  {
    assert IsEvent(sub, records[0], first + 0);
    if k > 1 {
      var kind := sub.parse(records[0]).value.kind.value;
      assert CheckRecord(sub, records[0], first) == Success(kind);
      NumberedOneLess(sub, records, first, k, last);
      NumberedFolds(sub, records[1..], first + 1, k - 1, last);
    } else {
      assert CheckRecord(sub, records[0], first) == Success(last);
    }
  }

  lemma NumberedOneLess(sub: Subscription, records: seq<seq<Byte>>, first: int, k: int, last: Kind)
    requires k > 1 && Numbered(sub, records, first, k, last)
    ensures Numbered(sub, records[1..], first + 1, k - 1, last)
  {
    var rest := records[1..];
    forall i | 0 <= i < k - 1
      ensures IsEvent(sub, rest[i], first + 1 + i)
      ensures i < k - 2 ==> sub.parse(rest[i]).value.kind in {Some(Snapshot), Some(Update)}
    {
      assert rest[i] == records[i + 1];
      assert IsEvent(sub, records[i + 1], first + (i + 1));
    }
    assert rest[k - 2] == records[k - 1];
  }

  /** However they are read, numbered events of the incarnation succeed when the last asks for the
      resynchronisation or reports the exit and nothing follows it. */
  lemma NumberedEventsSucceed(sub: Subscription, records: seq<seq<Byte>>, last: Kind, chunks: seq<seq<Byte>>)
    requires forall i :: 0 <= i < |records| ==> NEWLINE !in records[i]
    requires Numbered(sub, records, 1, |records|, last) && (last == ResyncRequired || last == Exited)
    requires AreReads(chunks) && Concat(chunks) == Written(records) && Room(Checker(sub), Written(records), 1)
    ensures Run(Checker(sub), chunks) == Success(last == ResyncRequired)
  {
    SplitWritten(records);
    NumberedFolds(sub, records, 1, |records|, last);
    ChunkingIsIrrelevant(Checker(sub), chunks);
  }

  /** A stream succeeds exactly when its records begin with such events, for reads that depend on neither
      what follows nor the bound. */
  lemma SucceedsIffNumbered(sub: Subscription, chunks: seq<seq<Byte>>, resync: bool)
    requires AreReads(chunks)
    requires Room(Checker(sub), Concat(chunks), 1) && NothingAfterEnd(Checker(sub), Concat(chunks))
    ensures var records, last := Split(Concat(chunks)).0, if resync then ResyncRequired else Exited;
      Run(Checker(sub), chunks) == Success(resync) <==> exists k :: Numbered(sub, records, 1, k, last)
  {
    var records := Split(Concat(chunks)).0;
    var last := if resync then ResyncRequired else Exited;
    if Run(Checker(sub), chunks) == Success(resync) {
      SuccessMeansNumberedEvents(sub, chunks);
    }
    if k :| Numbered(sub, records, 1, k, last) {
      NumberedFolds(sub, records, 1, k, last);
      ChunkingIsIrrelevant(Checker(sub), chunks);
    }
  }

  // ----- Two streams of events whose outcome depends on the reads ----------------------------------------

  /** A single event that ends the stream and one more byte: read apart it is a success, read along with
      the newline a partial record. */
  lemma TrailingByteDepends(sub: Subscription, record: seq<Byte>, b: Byte)
    requires NEWLINE !in record && |record| <= READ_CHUNK_BYTES
    requires CheckRecord(sub, record, 1).Success? && Ends(CheckRecord(sub, record, 1).value)
    ensures AreReads(Apart(record, b)) && AreReads(Together(record, b))
    ensures Concat(Apart(record, b)) == Concat(Together(record, b)) == record + ([NEWLINE] + [b])
    ensures Run(Checker(sub), Apart(record, b)).Success?
    ensures Run(Checker(sub), Together(record, b)) == Failure(PartialRecord)
  {
    BothSpell(record, b);
    TrailingByteSplits(Checker(sub), record, b);
  }

  /** An event one byte below the bound and the beginning of the next: byte by byte the stream ends in a
      partial record, and with a larger read at the newline the record is too long. */
  lemma OversizedEventDepends(sub: Subscription, record: seq<Byte>, b: Byte) returns (chunks: seq<seq<Byte>>)
    requires |record| == 8388607 && NEWLINE !in record && b != NEWLINE
    requires Continues(CheckRecord(sub, record, 1))
    ensures var stream := record + ([NEWLINE] + [b]);
      && AreReads(chunks) && Concat(chunks) == stream && Run(Checker(sub), chunks) == Failure(RecordTooLong)
      && AreReads(Singles(stream)) && Concat(Singles(stream)) == stream
      && Run(Checker(sub), Singles(stream)) == Failure(PartialRecord)
  {
    chunks := OversizedSplits(Checker(sub), record, b);
  }

  /** There are such events: what decodes as a well-formed exit, or as an update. */
  lemma SuchEventsExist(record: seq<Byte>, kind: Kind) returns (sub: Subscription)
    requires record != [] && kind != AccessRevoked
    ensures CheckRecord(sub, record, 1) == Success(kind)
  {
    var event := Event("splinterm.cli.event.v2", "1", 1, "terminal", Some(kind), "splint", 1, true);
    sub := Subscription("splint", 1, text => Some(event));
  }
}
