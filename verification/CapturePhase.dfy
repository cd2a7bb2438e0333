/** Marker captures: taking them until the marker shows, and checking the evidence they leave. */
module CapturePhase {
  import opened Wrappers

  datatype Attempt = Attempt(sequence: int, captureStart: int, captureEnd: int, decodeComplete: int, markerFound: bool)

  datatype Phase = Phase(trigger: int, childReceipt: int, foundSequence: int, attempts: seq<Attempt>)

  // ----- What the evidence should show -----------------------------------------------------

  /** Trigger, receipt, then the first `n` attempts in turn. */
  function TimelineUpto(p: Phase, n: nat): (times: seq<int>)
    requires n <= |p.attempts|
    ensures |times| >= 2 && times[0] == p.trigger && times[1] == p.childReceipt
  {
    if n == 0 then [p.trigger, p.childReceipt]
    else
      var a := p.attempts[n - 1];
      TimelineUpto(p, n - 1) + [a.captureStart, a.captureEnd, a.decodeComplete]
  }

  function Timeline(p: Phase): seq<int> {
    TimelineUpto(p, |p.attempts|)
  }

  predicate Nondecreasing(times: seq<int>) {
    forall i, j :: 0 <= i < j < |times| ==> times[i] <= times[j]
  }

  predicate NumberedInOrder(attempts: seq<Attempt>) {
    forall i :: 0 <= i < |attempts| ==> attempts[i].sequence == i
  }

  /** The marker is seen in this attempt and in no other. */
  predicate FoundOnlyAt(attempts: seq<Attempt>, found: int) {
    0 <= found < |attempts| && forall i :: 0 <= i < |attempts| ==> (attempts[i].markerFound <==> i == found)
  }

  predicate IsOrdered(p: Phase) {
    Nondecreasing(Timeline(p)) && NumberedInOrder(p.attempts) && FoundOnlyAt(p.attempts, p.foundSequence)
  }

  // ----- From local checks to the whole timeline ---------------------------------------------

  lemma NondecreasingAppend(times: seq<int>, a: int, b: int, c: int)
    requires times != []
    ensures Nondecreasing(times + [a, b, c]) <==> Nondecreasing(times) && times[|times| - 1] <= a <= b <= c
  {
    var all := times + [a, b, c];
    var n := |times|;
    assert all[n - 1] == times[n - 1] && all[n] == a && all[n + 1] == b && all[n + 2] == c;
    assert all[..n] == times;
    if Nondecreasing(all) {
      assert forall i, j :: 0 <= i < j < n ==> all[i] <= all[j];
    }
    if Nondecreasing(times) && times[n - 1] <= a <= b <= c {
      forall i, j | 0 <= i < j < |all|
        ensures all[i] <= all[j]
      {
        if i < n && j >= n {
          assert times[i] <= times[n - 1];
        }
      }
    }
  }

  /** The last time before attempt `n`. */
  function LastTime(p: Phase, n: nat): int
    requires n <= |p.attempts|
  {
    if n == 0 then p.childReceipt else p.attempts[n - 1].decodeComplete
  }

  lemma LastOfTimeline(p: Phase, n: nat)
    requires n <= |p.attempts|
    ensures var t := TimelineUpto(p, n); t[|t| - 1] == LastTime(p, n)
  {
  }

  lemma PrefixNondecreasing(p: Phase, n: nat)
    requires n < |p.attempts|
    ensures var a := p.attempts[n];
      Nondecreasing(TimelineUpto(p, n + 1)) <==>
      Nondecreasing(TimelineUpto(p, n)) && LastTime(p, n) <= a.captureStart <= a.captureEnd <= a.decodeComplete
  {
    LastOfTimeline(p, n);
    var a := p.attempts[n];
    NondecreasingAppend(TimelineUpto(p, n), a.captureStart, a.captureEnd, a.decodeComplete);
  }

  lemma {:induction false} WholeNeedsPrefix(p: Phase, n: nat)
    requires n <= |p.attempts| && Nondecreasing(Timeline(p))
    ensures Nondecreasing(TimelineUpto(p, n))
    decreases |p.attempts| - n
  {
    if n < |p.attempts| {
      WholeNeedsPrefix(p, n + 1);
      PrefixNondecreasing(p, n);
    }
  }

  /** The checks made before the loop. */
  lemma OpeningDecides(p: Phase)
    ensures p.trigger > p.childReceipt ==> !IsOrdered(p)
    ensures p.attempts != [] && p.attempts[0].captureStart < p.childReceipt ==> !IsOrdered(p)
  {
    assert Timeline(p)[0] == p.trigger && Timeline(p)[1] == p.childReceipt;
    if p.attempts != [] && p.attempts[0].captureStart < p.childReceipt {
      PrefixNondecreasing(p, 0);
      Refute(p, 0);
    }
  }

  /** What the loop knows before attempt `n`. */
  ghost predicate Passed(p: Phase, n: nat, previous: int, markers: seq<int>)
    requires n <= |p.attempts|
  {
    && Nondecreasing(TimelineUpto(p, n)) && (forall i :: 0 <= i < n ==> p.attempts[i].sequence == i)
    && AreMarkers(p.attempts, n, markers)
    && p.trigger <= p.childReceipt && p.trigger <= previous
    && previous == if n == 0 then p.trigger else LastTime(p, n)
  }

  /** The comparisons the loop makes for one attempt. */
  predicate InTurn(p: Phase, n: nat, previous: int, a: Attempt) {
    a.sequence == n && p.trigger <= previous <= a.captureStart <= a.captureEnd <= a.decodeComplete
  }

  lemma PassedNext(p: Phase, n: nat, previous: int, markers: seq<int>)
    requires n < |p.attempts| && Passed(p, n, previous, markers) && InTurn(p, n, previous, p.attempts[n])
    requires p.attempts[0].captureStart >= p.childReceipt
    ensures var a := p.attempts[n];
      Passed(p, n + 1, a.decodeComplete, if a.markerFound then markers + [n] else markers)
  {
    PrefixNondecreasing(p, n);
    MarkersGrow(p.attempts, n, markers);
  }

  lemma OutOfTurn(p: Phase, n: nat, previous: int, markers: seq<int>)
    requires n < |p.attempts| && Passed(p, n, previous, markers) && !InTurn(p, n, previous, p.attempts[n])
    ensures !IsOrdered(p)
  {
    var a := p.attempts[n];
    PrefixNondecreasing(p, n);
    if !(LastTime(p, n) <= a.captureStart <= a.captureEnd <= a.decodeComplete) {
      Refute(p, n);
    }
  }

  lemma NothingPassed(p: Phase)
    requires p.trigger <= p.childReceipt
    ensures Passed(p, 0, p.trigger, [])
  {
  }

  lemma PassedAll(p: Phase, previous: int, markers: seq<int>)
    requires Passed(p, |p.attempts|, previous, markers)
    ensures IsOrdered(p) <==> markers == [p.foundSequence]
  {
    MarkersDecide(p.attempts, markers, p.foundSequence);
  }

  /** `capture_phase_is_ordered`: one pass of local comparisons decides the global order. */
  method CheckOrdered(p: Phase) returns (ok: bool)
    ensures ok <==> IsOrdered(p)
  {
    if p.attempts == [] {
      return false;
    }
    OpeningDecides(p);
    if p.trigger > p.childReceipt {
      return false;
    }
    if p.attempts[0].captureStart < p.childReceipt {
      return false;
    }
    var n, previousDecode, markers := ScanAttempts(p);
    if n < |p.attempts| {
      OutOfTurn(p, n, previousDecode, markers);
      return false;
    }
    PassedAll(p, previousDecode, markers);
    return markers == [p.foundSequence];
  }

  /** The loop: the attempts in turn, up to the first that is out of turn, and where the marker was found. */
  method ScanAttempts(p: Phase) returns (n: nat, previousDecode: int, markers: seq<int>)
    requires p.attempts != [] && p.trigger <= p.childReceipt <= p.attempts[0].captureStart
    ensures n <= |p.attempts| && Passed(p, n, previousDecode, markers)
    ensures n < |p.attempts| ==> !InTurn(p, n, previousDecode, p.attempts[n])
  {
    n, previousDecode, markers := 0, p.trigger, [];
    NothingPassed(p);
    while n < |p.attempts|
      invariant n <= |p.attempts| && Passed(p, n, previousDecode, markers)
    {
      var attempt := p.attempts[n];
      if attempt.sequence != n {
        return;
      }
      if !(p.trigger <= previousDecode <= attempt.captureStart <= attempt.captureEnd <= attempt.decodeComplete) {
        return;
      }
      PassedNext(p, n, previousDecode, markers);
      previousDecode := attempt.decodeComplete;
      markers := if attempt.markerFound then markers + [n] else markers;
      n := n + 1;
    }
  }

  lemma Refute(p: Phase, n: nat)
    requires n < |p.attempts| && !Nondecreasing(TimelineUpto(p, n + 1))
    ensures !Nondecreasing(Timeline(p))
  {
    if Nondecreasing(Timeline(p)) {
      WholeNeedsPrefix(p, n + 1);
    }
  }

  /** The positions among the first `n` where the marker was found, in order. */
  ghost predicate AreMarkers(attempts: seq<Attempt>, n: nat, markers: seq<int>)
    requires n <= |attempts|
  {
    && (forall i, j :: 0 <= i < j < |markers| ==> markers[i] < markers[j])
    && (forall k :: 0 <= k < |markers| ==> 0 <= markers[k] < n)
    && (forall i :: 0 <= i < n ==> (attempts[i].markerFound <==> i in markers))
  }

  lemma MarkersGrow(attempts: seq<Attempt>, n: nat, markers: seq<int>)
    requires n < |attempts| && AreMarkers(attempts, n, markers)
    ensures AreMarkers(attempts, n + 1, if attempts[n].markerFound then markers + [n] else markers)
  {
    assert n !in markers;
  }

  lemma MarkersDecide(attempts: seq<Attempt>, markers: seq<int>, found: int)
    requires AreMarkers(attempts, |attempts|, markers)
    ensures markers == [found] <==> FoundOnlyAt(attempts, found)
  {
    if markers == [found] {
      assert markers[0] == found;
    }
    if FoundOnlyAt(attempts, found) {
      assert found in markers;
      assert |markers| >= 2 ==> markers[0] < markers[1];
      forall k | 0 <= k < |markers|
        ensures markers[k] == found
      {
        assert markers[k] in markers;
      }
    }
  }

  // ----- Taking captures -----------------------------------------------------------------------

  /** The four readings of the monotonic clock one pass of the loop makes. */
  datatype Readings = Readings(test: int, start: int, end: int, decode: int)

  /** The clock never runs backward. */
  ghost predicate Monotonic(clock: nat -> Readings) {
    forall i: nat :: clock(i).test <= clock(i).start <= clock(i).end <= clock(i).decode <= clock(i + 1).test
  }

  function TakenAt(clock: nat -> Readings, seen: nat -> bool, i: nat): Attempt {
    Attempt(i, clock(i).start, clock(i).end, clock(i).decode, seen(i))
  }

  ghost predicate AreTaken(clock: nat -> Readings, seen: nat -> bool, attempts: seq<Attempt>) {
    forall i :: 0 <= i < |attempts| ==> attempts[i] == TakenAt(clock, seen, i)
  }

  predicate IsQuantization(attempts: seq<Attempt>, q: int) {
    && (forall i :: 0 <= i < |attempts| ==> attempts[i].decodeComplete - attempts[i].captureStart <= q)
    && exists i :: 0 <= i < |attempts| && attempts[i].decodeComplete - attempts[i].captureStart == q
  }

  predicate UnseenBefore(seen: nat -> bool, n: nat) {
    forall i: nat :: i < n ==> !seen(i)
  }

  /** What a successful series of captures is: taken in turn until the marker shows, and acceptable
      evidence for every trigger and receipt that precede its first capture. */
  ghost predicate IsSeries(clock: nat -> Readings, seen: nat -> bool, attempts: seq<Attempt>, quantization: int) {
    && attempts != [] && AreTaken(clock, seen, attempts)
    && UnseenBefore(seen, |attempts| - 1) && seen(|attempts| - 1)
    && IsQuantization(attempts, quantization)
    && (forall p: Phase :: IsAbout(p, attempts) ==> IsOrdered(p))
  }

  predicate IsAbout(p: Phase, attempts: seq<Attempt>) {
    && attempts != [] && p.attempts == attempts && p.foundSequence == |attempts| - 1
    && p.trigger <= p.childReceipt <= attempts[0].captureStart
  }

  type Captured = Result<(seq<Attempt>, int, int), string>

  /** The loop came to pass `n` before the deadline each time and without having seen the marker. */
  predicate StillLooking(clock: nat -> Readings, seen: nat -> bool, deadline: int, n: nat) {
    forall i: nat :: i < n ==> clock(i).test < deadline && !seen(i)
  }

  /** The loop ends at pass `n`: the marker shows there in time, or time is up. */
  ghost predicate EndsAt(clock: nat -> Readings, seen: nat -> bool, deadline: int, n: nat, r: Captured) {
    && StillLooking(clock, seen, deadline, n)
    && (r.Success? ==>
          && clock(n).test < deadline && r.value.1 == n && |r.value.0| == n + 1
          && IsSeries(clock, seen, r.value.0, r.value.2))
    && (r.Failure? ==> clock(n).test >= deadline)
  }

  /** Where the loop ends and what it returns is settled by the clock and the pictures alone. */
  lemma EndIsDetermined(clock: nat -> Readings, seen: nat -> bool, deadline: int,
                        m: nat, r: Captured, n: nat, s: Captured)
    requires EndsAt(clock, seen, deadline, m, r) && EndsAt(clock, seen, deadline, n, s)
    ensures m == n && r.Success? == s.Success? && (r.Success? ==> r == s)
  {
    assert m < n ==> clock(m).test < deadline && !seen(m);
    assert n < m ==> clock(n).test < deadline && !seen(n);
    assert r.Success? ==> seen(m);
    assert s.Success? ==> seen(n);
    if r.Success? && s.Success? {
      assert r.value.0 == s.value.0;
      QuantizationIsUnique(r.value.0, r.value.2, s.value.2);
    }
  }

  lemma QuantizationIsUnique(attempts: seq<Attempt>, p: int, q: int)
    requires IsQuantization(attempts, p) && IsQuantization(attempts, q)
    ensures p == q
  {
    var i :| 0 <= i < |attempts| && attempts[i].decodeComplete - attempts[i].captureStart == p;
    var j :| 0 <= j < |attempts| && attempts[j].decodeComplete - attempts[j].captureStart == q;
  }

  /** `capture_marker_attempts`. Time passes: at `horizon` the deadline is over. */
  method CaptureAttempts(clock: nat -> Readings, seen: nat -> bool, deadline: int, ghost horizon: nat)
      returns (r: Captured)
    requires Monotonic(clock) && clock(horizon).test >= deadline
    ensures exists n: nat :: EndsAt(clock, seen, deadline, n, r)
  {
    var attempts: seq<Attempt> := [];
    while clock(|attempts|).test < deadline
      invariant AreTaken(clock, seen, attempts) && StillLooking(clock, seen, deadline, |attempts|)
      invariant |attempts| <= horizon
      decreases horizon - |attempts|
    {
      var sequence := |attempts|;
      var captureStart := clock(sequence).start;
      var captureEnd := clock(sequence).end;
      var decodeComplete := clock(sequence).decode;
      var found := seen(sequence);
      attempts := attempts + [Attempt(sequence, captureStart, captureEnd, decodeComplete, found)];
      if found {
        var quantization := Quantization(attempts);
        SeriesIsEvidence(clock, seen, attempts, quantization);
        r := Success((attempts, sequence, quantization));
        assert EndsAt(clock, seen, deadline, sequence, r);
        return;
      }
      assert sequence != horizon;
    }
    r := Failure("visible marker was not observed");
    assert EndsAt(clock, seen, deadline, |attempts|, r);
  }

  lemma SeriesIsEvidence(clock: nat -> Readings, seen: nat -> bool, attempts: seq<Attempt>, quantization: int)
    requires Monotonic(clock) && attempts != [] && AreTaken(clock, seen, attempts)
    requires UnseenBefore(seen, |attempts| - 1) && seen(|attempts| - 1) && IsQuantization(attempts, quantization)
    ensures IsSeries(clock, seen, attempts, quantization)
  {
    forall p: Phase | IsAbout(p, attempts)
      ensures IsOrdered(p)
    {
      TakenIsOrdered(clock, seen, p);
    }
  }

  method Quantization(attempts: seq<Attempt>) returns (q: int)
    requires attempts != []
    ensures IsQuantization(attempts, q)
  {
    q := attempts[0].decodeComplete - attempts[0].captureStart;
    for i := 1 to |attempts|
      invariant IsQuantization(attempts[..i], q)
    {
      var span := attempts[i].decodeComplete - attempts[i].captureStart;
      ghost var k :| 0 <= k < i && attempts[..i][k].decodeComplete - attempts[..i][k].captureStart == q;
      assert attempts[..i + 1][k] == attempts[k] && attempts[..i + 1][i] == attempts[i];
      if span > q {
        q := span;
      }
    }
    assert attempts[..|attempts|] == attempts;
  }

  lemma TakenIsOrdered(clock: nat -> Readings, seen: nat -> bool, p: Phase)
    requires Monotonic(clock) && AreTaken(clock, seen, p.attempts) && p.attempts != []
    requires p.trigger <= p.childReceipt <= p.attempts[0].captureStart
    requires p.foundSequence == |p.attempts| - 1 && seen(p.foundSequence)
    requires UnseenBefore(seen, p.foundSequence)
    ensures IsOrdered(p)
  {
    TakenTimeline(clock, seen, p, |p.attempts|);
  }

  lemma {:induction false} TakenTimeline(clock: nat -> Readings, seen: nat -> bool, p: Phase, n: nat)
    requires Monotonic(clock) && AreTaken(clock, seen, p.attempts) && n <= |p.attempts| && p.attempts != []
    requires p.trigger <= p.childReceipt <= p.attempts[0].captureStart
    ensures Nondecreasing(TimelineUpto(p, n))
  {
    if n > 0 {
      TakenTimeline(clock, seen, p, n - 1);
      PrefixNondecreasing(p, n - 1);
      var a := p.attempts[n - 1];
      assert a == TakenAt(clock, seen, n - 1);
      if n > 1 {
        assert p.attempts[n - 2] == TakenAt(clock, seen, n - 2);
        assert clock(n - 2).decode <= clock(n - 2 + 1).test;
      }
    }
  }
}
