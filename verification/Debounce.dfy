/** Waiting until every pane has advanced and the terminal has settled. */
module Debounce {
  import opened Wrappers

  datatype Snapshot = Snapshot(incarnation: int, revision: int)

  /** One pass of the loop: the clock at its test, the snapshots of all panes, the clock after them. */
  datatype Poll = Poll(test: int, latest: seq<Snapshot>, now: int)

  type Polls = nat -> Poll

  /** A clock that never runs backward. */
  ghost predicate Monotonic(polls: Polls) {
    forall k: nat :: polls(k).test <= polls(k).now <= polls(k + 1).test
  }

  /** Every pane's revision is past its minimum. */
  predicate Advanced(minimum: seq<int>, latest: seq<Snapshot>) {
    |latest| == |minimum| && forall i :: 0 <= i < |latest| ==> latest[i].revision > minimum[i]
  }

  /** Polls `m` to `n` all saw the same incarnations and revisions. */
  ghost predicate Unchanged(polls: Polls, m: nat, n: nat) {
    m <= n && forall k: nat :: m <= k <= n ==> polls(k).latest == polls(n).latest
  }

  /** At poll `n` the panes have advanced and nothing has changed for the required span. */
  ghost predicate SettledSince(polls: Polls, minimum: seq<int>, stable: int, m: nat, n: nat) {
    && m < n && Unchanged(polls, m, n)
    && Advanced(minimum, polls(n).latest)
    && polls(n).now - polls(m).now >= stable
  }

  ghost predicate Settled(polls: Polls, minimum: seq<int>, stable: int, n: nat) {
    exists m: nat :: SettledSince(polls, minimum, stable, m, n)
  }

  /** The loop reached poll `n` without having settled before. */
  ghost predicate StillWaiting(polls: Polls, minimum: seq<int>, stable: int, deadline: int, n: nat) {
    forall k: nat :: k < n ==> polls(k).test < deadline && !Settled(polls, minimum, stable, k)
  }

  /** Poll `start` begins the stretch of unchanged polls that ends at `n`. */
  ghost predicate IsStart(polls: Polls, start: nat, n: nat) {
    Unchanged(polls, start, n) && (start > 0 ==> polls(start - 1).latest != polls(n).latest)
  }

  lemma StartIsEarliest(polls: Polls, start: nat, m: nat, n: nat)
    requires Monotonic(polls) && IsStart(polls, start, n) && Unchanged(polls, m, n)
    ensures start <= m && polls(start).now <= polls(m).now
  {
    if start <= m {
      ClockGrows(polls, start, m);
    }
  }

  lemma {:induction false} ClockGrows(polls: Polls, i: nat, j: nat)
    requires Monotonic(polls) && i <= j
    ensures polls(i).now <= polls(j).now
    decreases j - i
  {
    if i < j {
      ClockGrows(polls, i + 1, j);
      assert polls(i).now <= polls(i + 1).test;
    }
  }

  /** Whether poll `n` has settled is decided by the first poll of its unchanged stretch. */
  lemma SettledFromStart(polls: Polls, minimum: seq<int>, stable: int, start: nat, n: nat)
    requires Monotonic(polls) && IsStart(polls, start, n)
    ensures Settled(polls, minimum, stable, n) <==> SettledSince(polls, minimum, stable, start, n)
  {
    forall m: nat | SettledSince(polls, minimum, stable, m, n)
      ensures SettledSince(polls, minimum, stable, start, n)
    {
      StartIsEarliest(polls, start, m, n);
    }
  }

  /** The loop ends at poll `last`: nothing had settled before, and now it settles or time is up. */
  ghost predicate EndsAt(polls: Polls, minimum: seq<int>, stable: int, deadline: int, last: nat,
      r: Result<seq<Snapshot>, string>) {
    && StillWaiting(polls, minimum, stable, deadline, last)
    && (r.Success? ==>
          polls(last).test < deadline && Settled(polls, minimum, stable, last) && r.value == polls(last).latest)
    && (r.Failure? ==> polls(last).test >= deadline)
  }

  /** Where the loop ends, whether it succeeds and what it returns is settled by the polls alone. */
  lemma EndIsDetermined(polls: Polls, minimum: seq<int>, stable: int, deadline: int,
                        m: nat, r: Result<seq<Snapshot>, string>, n: nat, s: Result<seq<Snapshot>, string>)
    requires EndsAt(polls, minimum, stable, deadline, m, r) && EndsAt(polls, minimum, stable, deadline, n, s)
    ensures m == n && r.Success? == s.Success? && (r.Success? ==> r == s)
  {
    assert m < n ==> polls(m).test < deadline && !Settled(polls, minimum, stable, m);
    assert n < m ==> polls(n).test < deadline && !Settled(polls, minimum, stable, n);
  }

  /** An unchanged poll continues the stretch before it, a changed one starts another. */
  lemma StretchGoesOn(polls: Polls, start: nat, k: nat)
    requires if start == k then k > 0 ==> polls(k - 1).latest != polls(k).latest
             else k > 0 && IsStart(polls, start, k - 1) && polls(k - 1).latest == polls(k).latest
    ensures IsStart(polls, start, k)
  {
  }

  method AllAdvanced(minimum: seq<int>, latest: seq<Snapshot>) returns (advanced: bool)
    requires |latest| == |minimum|
    ensures advanced <==> Advanced(minimum, latest)
  {
    for i := 0 to |latest|
      invariant forall j :: 0 <= j < i ==> latest[j].revision > minimum[j]
    {
      if latest[i].revision <= minimum[i] {
        return false;
      }
    }
    return true;
  }

  /** `settled_snapshots`: returns the snapshots of the first poll that has settled before the deadline,
      and times out when there is none. Time passes: `horizon` is some poll that comes after the deadline. */
  method SettledSnapshots(polls: Polls, minimum: seq<int>, stable: int, deadline: int, ghost horizon: nat)
      returns (r: Result<seq<Snapshot>, string>)
    requires Monotonic(polls) && forall k: nat :: |polls(k).latest| == |minimum|
    requires polls(horizon).test >= deadline
    ensures exists last: nat :: EndsAt(polls, minimum, stable, deadline, last, r)
  {
    var stableSince: Option<int> := None;
    var previous: Option<seq<Snapshot>> := None;
    ghost var start: nat := 0;
    var k: nat := 0;
    while polls(k).test < deadline
      invariant StillWaiting(polls, minimum, stable, deadline, k)
      invariant k == 0 ==> previous.None? && stableSince.None?
      invariant k > 0 ==> previous == Some(polls(k - 1).latest) && IsStart(polls, start, k - 1)
      invariant k > 0 ==> stableSince == if Advanced(minimum, polls(k - 1).latest) then Some(polls(start).now) else None
      invariant k <= horizon
      decreases horizon - k
    {
      var latest := polls(k).latest;
      var advanced := AllAdvanced(minimum, latest);
      var now := polls(k).now;
      if previous != Some(latest) {
        start := k;
      }
      StretchGoesOn(polls, start, k);
      SettledFromStart(polls, minimum, stable, start, k);
      if advanced && previous == Some(latest) {
        if stableSince.Some? && now - stableSince.value >= stable {
          r := Success(latest);
          assert EndsAt(polls, minimum, stable, deadline, k, r);
          return;
        }
      } else {
        stableSince := if advanced then Some(now) else None;
        previous := Some(latest);
      }
      assert k != horizon;
      k := k + 1;
    }
    r := Failure("terminal revisions did not advance and settle");
    assert EndsAt(polls, minimum, stable, deadline, k, r);
  }

  /** A poll has settled exactly when over the whole required span no poll saw anything else and every
      revision was above its minimum. */
  lemma SettledMeansQuiet(polls: Polls, minimum: seq<int>, stable: int, n: nat)
    ensures Settled(polls, minimum, stable, n) <==>
      exists m: nat :: m < n && polls(n).now - polls(m).now >= stable && QuietBetween(polls, minimum, m, n)
  {
    if Settled(polls, minimum, stable, n) {
      var m: nat :| SettledSince(polls, minimum, stable, m, n);
      assert QuietBetween(polls, minimum, m, n);
    }
    if m: nat :| m < n && polls(n).now - polls(m).now >= stable && QuietBetween(polls, minimum, m, n) {
      assert Past(minimum, polls(n).latest);
      assert SettledSince(polls, minimum, stable, m, n);
    }
  }

  predicate Past(minimum: seq<int>, latest: seq<Snapshot>) {
    |minimum| == |latest| && forall i :: 0 <= i < |minimum| ==> minimum[i] + 1 <= latest[i].revision
  }

  ghost predicate QuietBetween(polls: Polls, minimum: seq<int>, m: nat, n: nat) {
    forall k: nat :: m <= k <= n ==> polls(k).latest == polls(n).latest && Past(minimum, polls(k).latest)
  }
}
