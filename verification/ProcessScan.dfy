/** Waiting for and terminating exact process incarnations while the process table keeps changing. */
module ProcessScan {
  import opened Wrappers
  import opened ProcessTree

  /** The process table at every instant: which incarnation, if any, holds each process id. */
  type World = nat -> map<int, int>

  predicate Alive(world: World, identity: ProcessIdentity, t: nat) {
    identity.pid in world(t) && world(t)[identity.pid] == identity.startTicks
  }

  /** An incarnation that is gone never comes back. */
  ghost predicate NoRecurrence(world: World) {
    forall identity, u: nat :: SeenBy(world, identity, u) && !Alive(world, identity, u) ==> DeadFrom(world, identity, u)
  }

  ghost predicate SeenBy(world: World, identity: ProcessIdentity, now: nat) {
    exists t: nat :: t <= now && Alive(world, identity, t)
  }

  ghost predicate SeenIn(world: World, identity: ProcessIdentity, from: nat, to: nat) {
    exists t: nat :: from <= t <= to && Alive(world, identity, t)
  }

  ghost predicate DeadFrom(world: World, identity: ProcessIdentity, now: nat) {
    forall t: nat :: t >= now ==> !Alive(world, identity, t)
  }

  /** Every identity was read from the table at some point, as `process_identity` does. */
  ghost predicate AllSeen(world: World, identities: seq<ProcessIdentity>, now: nat) {
    forall i :: 0 <= i < |identities| ==> SeenBy(world, identities[i], now)
  }

  /** Whoever is not in `some` is dead for good. */
  ghost predicate DroppedAreDead(world: World, all: seq<ProcessIdentity>, some: seq<ProcessIdentity>, now: nat) {
    forall i :: 0 <= i < |all| ==> all[i] in some || DeadFrom(world, all[i], now)
  }

  ghost predicate AllDead(world: World, identities: seq<ProcessIdentity>, now: nat) {
    forall i :: 0 <= i < |identities| ==> DeadFrom(world, identities[i], now)
  }

  /** Some identity was alive at an instant of the interval. */
  ghost predicate SomeAlive(world: World, identities: seq<ProcessIdentity>, from: nat, to: nat) {
    exists i, t: nat :: 0 <= i < |identities| && from <= t <= to && Alive(world, identities[i], t)
  }

  lemma DeadStaysDead(world: World, identity: ProcessIdentity, now: nat)
    requires NoRecurrence(world) && SeenBy(world, identity, now) && !Alive(world, identity, now)
    ensures DeadFrom(world, identity, now)
  {
  }

  lemma SomeAliveAmong(world: World, some: seq<ProcessIdentity>, all: seq<ProcessIdentity>, from: nat, to: nat)
    requires SomeAlive(world, some, from, to) && forall identity :: identity in some ==> identity in all
    ensures SomeAlive(world, all, from, to)
  {
    var i, t: nat :| 0 <= i < |some| && from <= t <= to && Alive(world, some[i], t);
    assert some[i] in all;
  }

  datatype SignalKind = Terminate | Kill

  /** A signal sent for an identity, to its process id; what it does to the table is up to the world. */
  datatype Signal = Signal(kind: SignalKind, identity: ProcessIdentity, at: nat)

  /** Whoever holds the process id when the signal is sent. */
  function Recipient(world: World, signal: Signal): Option<ProcessIdentity> {
    var pid, table := signal.identity.pid, world(signal.at);
    if pid in table then Some(ProcessIdentity(pid, table[pid])) else None
  }

  /** The signal reaches the incarnation it was meant for, or nobody. */
  predicate OnTarget(world: World, signal: Signal) {
    Recipient(world, signal) == None || Recipient(world, signal) == Some(signal.identity)
  }

  /** Another incarnation holds the process id. */
  predicate Reused(world: World, identity: ProcessIdentity, t: nat) {
    identity.pid in world(t) && world(t)[identity.pid] != identity.startTicks
  }

  /** The signal was sent for an incarnation asked for, which was alive during the call before that. */
  ghost predicate Justified(world: World, identities: seq<ProcessIdentity>, from: nat, signal: Signal) {
    signal.identity in identities && SeenIn(world, signal.identity, from, signal.at)
  }

  /** All signals of a call, in order: terminations, and kills only when the timeout had passed, to
      incarnations that had been asked to terminate. */
  ghost predicate Escalates(world: World, identities: seq<ProcessIdentity>, from: nat, timeout: nat,
                            signals: seq<Signal>)
  {
    && (forall i :: 0 <= i < |signals| ==> Justified(world, identities, from, signals[i]))
    && (forall i :: 0 <= i < |signals| && signals[i].kind == Kill ==>
          && signals[i].at >= from + timeout
          && exists j :: 0 <= j < i && signals[j].kind == Terminate && signals[j].identity == signals[i].identity)
  }

  ghost predicate NoneReused(world: World, identities: seq<ProcessIdentity>, from: nat, to: nat) {
    forall identity, t: nat :: identity in identities && from <= t <= to ==> !Reused(world, identity, t)
  }

  ghost predicate AllOnTarget(world: World, signals: seq<Signal>) {
    forall i :: 0 <= i < |signals| ==> OnTarget(world, signals[i])
  }

  predicate SentBy(signals: seq<Signal>, to: nat) {
    forall i :: 0 <= i < |signals| ==> signals[i].at <= to
  }

  /** While no process id changes hands every signal is on target. */
  lemma KeptPidsAreOnTarget(world: World, identities: seq<ProcessIdentity>, from: nat, to: nat, timeout: nat,
                            signals: seq<Signal>)
    requires Escalates(world, identities, from, timeout, signals) && SentBy(signals, to)
    ensures NoneReused(world, identities, from, to) ==> AllOnTarget(world, signals)
  {
    if NoneReused(world, identities, from, to) {
      forall i | 0 <= i < |signals|
        ensures OnTarget(world, signals[i])
      {
        assert Justified(world, identities, from, signals[i]);
        assert !Reused(world, signals[i].identity, signals[i].at);
      }
    }
  }

  /** Once alive after `from`, an incarnation asked for never leaves its process id to another. */
  ghost predicate NeverInherited(world: World, identities: seq<ProcessIdentity>, from: nat) {
    forall identity, u: nat ::
      identity in identities && SeenIn(world, identity, from, u) ==> !Reused(world, identity, u)
  }

  /** Every signal a call may send is on target exactly when no process id is inherited: the time between
      the filter and the signal is all it takes. */
  lemma OnTargetIffNeverInherited(world: World, identities: seq<ProcessIdentity>, from: nat)
    ensures (forall signal :: Justified(world, identities, from, signal) ==> OnTarget(world, signal)) <==>
            NeverInherited(world, identities, from)
  {
    if forall signal :: Justified(world, identities, from, signal) ==> OnTarget(world, signal) {
      forall identity, u: nat | identity in identities && SeenIn(world, identity, from, u)
        ensures !Reused(world, identity, u)
      {
        var signal := Signal(Terminate, identity, u);
        assert Justified(world, identities, from, signal) && OnTarget(world, signal);
      }
    }
    if NeverInherited(world, identities, from) {
      forall signal | Justified(world, identities, from, signal)
        ensures OnTarget(world, signal)
      {
        assert !Reused(world, signal.identity, signal.at);
      }
    }
  }

  /** A process id reused between the filter and the signal: a stranger is asked to terminate. */
  lemma StrangerIsSignalled(timeout: nat)
    ensures var world: World := t => if t == 0 then map[7 := 1] else map[7 := 2];
      var identity := ProcessIdentity(7, 1);
      var signal := Signal(Terminate, identity, 1);
      && NoRecurrence(world) && AllSeen(world, [identity], 0)
      && Escalates(world, [identity], 0, timeout, [signal])
      && Recipient(world, signal) == Some(ProcessIdentity(7, 2))
  {
    var world: World := t => if t == 0 then map[7 := 1] else map[7 := 2];
    var identity := ProcessIdentity(7, 1);
    assert Alive(world, identity, 0);
    assert SeenIn(world, identity, 0, 1) && SeenBy(world, identity, 0);
    forall other, u: nat | SeenBy(world, other, u) && !Alive(world, other, u)
      ensures DeadFrom(world, other, u)
    {
      var t: nat :| t <= u && Alive(world, other, t);
    }
  }

  /** One signal of this kind to each, not before `from`. */
  predicate SentTo(kind: SignalKind, identities: seq<ProcessIdentity>, from: nat, signals: seq<Signal>) {
    && |signals| == |identities|
    && forall i :: 0 <= i < |signals| ==>
         signals[i].kind == kind && signals[i].identity == identities[i] && signals[i].at >= from
  }

  /** All of them are among those asked for and were seen alive in the interval. */
  ghost predicate SeenAlive(world: World, some: seq<ProcessIdentity>, all: seq<ProcessIdentity>, from: nat, to: nat) {
    forall identity :: identity in some ==> identity in all && SeenIn(world, identity, from, to)
  }

  lemma TerminationsEscalate(world: World, all: seq<ProcessIdentity>, some: seq<ProcessIdentity>,
                             from: nat, to: nat, timeout: nat, signals: seq<Signal>)
    requires SeenAlive(world, some, all, from, to) && SentTo(Terminate, some, to, signals)
    ensures Escalates(world, all, from, timeout, signals)
  {
    forall i | 0 <= i < |signals|
      ensures Justified(world, all, from, signals[i])
    {
      assert some[i] in some;
    }
  }

  lemma KillsEscalate(world: World, all: seq<ProcessIdentity>, some: seq<ProcessIdentity>, few: seq<ProcessIdentity>,
                      from: nat, early: nat, waited: nat, late: nat, timeout: nat,
                      first: seq<Signal>, second: seq<Signal>)
    requires Escalates(world, all, from, timeout, first) && SentTo(Terminate, some, early, first)
    requires SeenAlive(world, few, some, waited, late) && SentTo(Kill, few, late, second)
    requires from + timeout <= waited <= late && forall identity :: identity in some ==> identity in all
    ensures Escalates(world, all, from, timeout, first + second)
  {
    var signals := first + second;
    forall i | |first| <= i < |signals|
      ensures Justified(world, all, from, signals[i])
      ensures exists j :: 0 <= j < i && signals[j].kind == Terminate && signals[j].identity == signals[i].identity
    {
      var identity := few[i - |first|];
      assert identity in few && signals[i] == second[i - |first|];
      var j :| 0 <= j < |some| && some[j] == identity;
      assert signals[j] == first[j];
    }
    assert forall i :: 0 <= i < |first| ==> signals[i] == first[i];
  }

  /** Those that are alive when it is their turn to be looked at. */
  ghost function AliveAt(world: World, identities: seq<ProcessIdentity>, times: seq<nat>): seq<ProcessIdentity>
    requires |times| == |identities|
  {
    if identities == [] then []
    else
      var n := |identities| - 1;
      AliveAt(world, identities[..n], times[..n])
      + if Alive(world, identities[n], times[n]) then [identities[n]] else []
  }

  predicate LooksWithin(times: seq<nat>, from: nat, to: nat) {
    forall i :: 0 <= i < |times| ==> from <= times[i] <= to
  }

  lemma {:induction false} AliveAtMeans(world: World, identities: seq<ProcessIdentity>, times: seq<nat>,
                                        identity: ProcessIdentity)
    requires |times| == |identities|
    ensures identity in AliveAt(world, identities, times) <==>
            exists i :: 0 <= i < |identities| && identities[i] == identity && Alive(world, identity, times[i])
  {
    if identities != [] {
      var n := |identities| - 1;
      AliveAtMeans(world, identities[..n], times[..n], identity);
      if i :| 0 <= i < n && identities[i] == identity && Alive(world, identity, times[i]) {
        assert identities[..n][i] == identity && times[..n][i] == times[i];
      }
    }
  }

  /** Looking at each once: those found alive were alive, those found dead are dead for good. */
  lemma LookedAt(world: World, identities: seq<ProcessIdentity>, times: seq<nat>, from: nat, to: nat)
    requires NoRecurrence(world) && AllSeen(world, identities, from) && from <= to
    requires |times| == |identities| && LooksWithin(times, from, to)
    ensures SeenAlive(world, AliveAt(world, identities, times), identities, from, to)
    ensures DroppedAreDead(world, identities, AliveAt(world, identities, times), to)
    ensures AllSeen(world, AliveAt(world, identities, times), to)
  {
    var some := AliveAt(world, identities, times);
    forall identity | identity in some
      ensures identity in identities && SeenIn(world, identity, from, to) && SeenBy(world, identity, to)
    {
      AliveAtMeans(world, identities, times, identity);
      var i :| 0 <= i < |identities| && identities[i] == identity && Alive(world, identity, times[i]);
      assert from <= times[i] <= to;
    }
    forall i | 0 <= i < |identities|
      ensures identities[i] in some || DeadFrom(world, identities[i], to)
    {
      AliveAtMeans(world, identities, times, identities[i]);
      if !Alive(world, identities[i], times[i]) {
        assert SeenBy(world, identities[i], from) && from <= times[i] <= to;
        assert SeenBy(world, identities[i], times[i]);
        DeadStaysDead(world, identities[i], times[i]);
      }
    }
  }

  /** What is sent in one call: a termination to each of those asked, and then nothing if that was enough, or
      else a kill to those of them that are alive when looked at again, after the timeout. */
  ghost predicate Sends(world: World, asked: seq<ProcessIdentity>, from: nat, timeout: nat, again: Option<seq<nat>>,
                        signals: seq<Signal>)
  {
    && |asked| <= |signals|
    && SentTo(Terminate, asked, from, signals[..|asked|])
    && match again
       case None => |signals| == |asked|
       case Some(times) =>
         && |times| == |asked|
         && (forall i :: 0 <= i < |times| ==> times[i] >= from + timeout)
         && SentTo(Kill, AliveAt(world, asked, times), from + timeout, signals[|asked|..])
  }

  lemma SendsBoth(world: World, asked: seq<ProcessIdentity>, from: nat, timeout: nat, early: nat, times: seq<nat>,
                  first: seq<Signal>, kills: seq<Signal>)
    requires from <= early && SentTo(Terminate, asked, early, first)
    requires |times| == |asked| && forall i :: 0 <= i < |times| ==> times[i] >= from + timeout
    requires SentTo(Kill, AliveAt(world, asked, times), from + timeout, kills)
    ensures Sends(world, asked, from, timeout, Some(times), first + kills)
  {
    assert (first + kills)[..|asked|] == first && (first + kills)[|asked|..] == kills;
  }

  /** This identity was sent such a signal. */
  predicate HasSignal(signals: seq<Signal>, kind: SignalKind, identity: ProcessIdentity) {
    exists i :: 0 <= i < |signals| && signals[i].kind == kind && signals[i].identity == identity
  }

  /** Whoever is alive at `now` was sent such a signal. */
  ghost predicate AliveHaveSignal(world: World, identities: seq<ProcessIdentity>, now: nat, kind: SignalKind,
                                  signals: seq<Signal>)
  {
    forall i :: 0 <= i < |identities| && Alive(world, identities[i], now) ==> HasSignal(signals, kind, identities[i])
  }

  lemma RemainingHaveSignal(world: World, all: seq<ProcessIdentity>, some: seq<ProcessIdentity>, from: nat, now: nat,
                            kind: SignalKind, signals: seq<Signal>)
    requires DroppedAreDead(world, all, some, now) && SentTo(kind, some, from, signals)
    ensures AliveHaveSignal(world, all, now, kind, signals)
  {
    forall i | 0 <= i < |all| && Alive(world, all[i], now)
      ensures HasSignal(signals, kind, all[i])
    {
      assert !DeadFrom(world, all[i], now);
      var j :| 0 <= j < |some| && some[j] == all[i];
      assert signals[j].kind == kind && signals[j].identity == all[i];
    }
  }

  /** Whoever is left of the second filter was left of the first. */
  lemma DroppedTwice(world: World, all: seq<ProcessIdentity>, some: seq<ProcessIdentity>, few: seq<ProcessIdentity>,
                     now: nat)
    requires DroppedAreDead(world, all, some, now) && DroppedAreDead(world, some, few, now)
    ensures DroppedAreDead(world, all, few, now)
  {
    forall i | 0 <= i < |all|
      ensures all[i] in few || DeadFrom(world, all[i], now)
    {
      if all[i] in some {
        var j :| 0 <= j < |some| && some[j] == all[i];
        assert some[j] in few || DeadFrom(world, some[j], now);
      }
    }
  }

  lemma HasSignalJoins(world: World, all: seq<ProcessIdentity>, now: nat, kind: SignalKind,
                       first: seq<Signal>, second: seq<Signal>)
    requires AliveHaveSignal(world, all, now, kind, second)
    ensures AliveHaveSignal(world, all, now, kind, first + second)
  {
    forall i | 0 <= i < |all| && Alive(world, all[i], now)
      ensures HasSignal(first + second, kind, all[i])
    {
      var j :| 0 <= j < |second| && second[j].kind == kind && second[j].identity == all[i];
      assert (first + second)[|first| + j] == second[j];
    }
  }

  lemma KilledHaveSignal(world: World, all: seq<ProcessIdentity>, some: seq<ProcessIdentity>,
                         few: seq<ProcessIdentity>, late: nat, now: nat, first: seq<Signal>, kills: seq<Signal>)
    requires DroppedAreDead(world, all, some, now) && DroppedAreDead(world, some, few, now)
    requires SentTo(Kill, few, late, kills)
    ensures AliveHaveSignal(world, all, now, Kill, first + kills)
  {
    DroppedTwice(world, all, some, few, now);
    RemainingHaveSignal(world, all, few, late, now, Kill, kills);
    HasSignalJoins(world, all, now, Kill, first, kills);
  }

  /** A process observing the table. Any amount of time passes between two observations. */
  class Observer {
    const world: World
    var now: nat
    ghost var looks: seq<nat>    // when each observation was made
    ghost var awake: bool        // there was no sleep since the last one

    constructor (world: World, now: nat)
      ensures this.world == world && this.now == now && looks == []
    {
      this.world := world;
      this.now := now;
      looks, awake := [], false;
    }

    /** The last observation, with no sleep after it, found one of them alive. */
    ghost predicate FoundAlive(identities: seq<ProcessIdentity>)
      reads this`looks, this`awake
    {
      awake && looks != [] && SomeAlive(world, identities, looks[|looks| - 1], looks[|looks| - 1])
    }

    method Sleep()
      modifies `now, `awake
      ensures now > old(now) && !awake
    {
      Pass(1);
      awake := false;
    }

    method Pass(least: nat)
      modifies `now
      ensures now >= old(now) + least
    {
      var elapsed: int :| elapsed >= 0;
      now := now + least + elapsed;
    }

    method SameProcess(identity: ProcessIdentity) returns (same: bool)
      modifies `now, `looks, `awake
      ensures now >= old(now) && looks == old(looks) + [now] && awake
      ensures same <==> Alive(world, identity, now)
    {
      Pass(0);
      looks, awake := looks + [now], true;
      var table := world(now);
      same := identity.pid in table && ProcessIdentity(identity.pid, table[identity.pid]) == identity;
    }

    /** `any(same_process(identity) for identity in identities)`, one observation at a time. */
    method AnyAlive(identities: seq<ProcessIdentity>) returns (any: bool)
      requires NoRecurrence(world) && AllSeen(world, identities, now)
      modifies `now, `looks, `awake
      ensures now >= old(now) && old(looks) <= looks
      ensures !any ==> AllDead(world, identities, now)
      ensures any ==> SomeAlive(world, identities, old(now), now) && FoundAlive(identities)
    {
      for i := 0 to |identities|
        invariant now >= old(now) && old(looks) <= looks
        invariant AllDead(world, identities[..i], now)
      {
        var same := SameProcess(identities[i]);
        if same {
          return true;
        }
        assert SeenBy(world, identities[i], now);
        DeadStaysDead(world, identities[i], now);
      }
      assert identities[..|identities|] == identities;
      return false;
    }

    method WaitGone(identities: seq<ProcessIdentity>, timeout: nat) returns (gone: bool)
      requires NoRecurrence(world) && AllSeen(world, identities, now)
      modifies `now, `looks, `awake
      ensures now >= old(now) && old(looks) <= looks
      ensures gone ==> AllDead(world, identities, now)
      ensures !gone ==> now >= old(now) + timeout && SomeAlive(world, identities, old(now), now)
      ensures !gone ==> FoundAlive(identities)
    {
      var deadline := now + timeout;
      var any := AnyAlive(identities);
      while any
        invariant now >= old(now) && old(looks) <= looks
        invariant if any then SomeAlive(world, identities, old(now), now) else AllDead(world, identities, now)
        invariant any ==> FoundAlive(identities)
        decreases if any && now < deadline then deadline - now else 0, if any then 1 else 0
      {
        Pass(0);
        if now >= deadline {
          return false;
        }
        Sleep();
        any := AnyAlive(identities);
      }
      return true;
    }

    /** `[identity for identity in identities if same_process(identity)]` */
    method Remaining(identities: seq<ProcessIdentity>) returns (remaining: seq<ProcessIdentity>, ghost times: seq<nat>)
      requires NoRecurrence(world) && AllSeen(world, identities, now)
      modifies `now, `looks, `awake
      ensures now >= old(now) && looks == old(looks) + times
      ensures |times| == |identities| && remaining == AliveAt(world, identities, times)
      ensures LooksWithin(times, old(now), now)
      ensures SeenAlive(world, remaining, identities, old(now), now)
      ensures DroppedAreDead(world, identities, remaining, now)
      ensures AllSeen(world, remaining, now)
    {
      remaining, times := [], [];
      for i := 0 to |identities|
        invariant now >= old(now) && looks == old(looks) + times
        invariant |times| == i && remaining == AliveAt(world, identities[..i], times)
        invariant LooksWithin(times, old(now), now)
      {
        var same := SameProcess(identities[i]);
        LooksGrow(world, identities, i, times, now);
        times := times + [now];
        if same {
          remaining := remaining + [identities[i]];
        }
      }
      assert identities[..|identities|] == identities;
      LookedAt(world, identities, times, old(now), now);
    }

    /** One signal to each, in turn; it does not matter whether the process is still there. */
    method SignalAll(kind: SignalKind, identities: seq<ProcessIdentity>) returns (signals: seq<Signal>)
      modifies `now
      ensures now >= old(now) && SentTo(kind, identities, old(now), signals) && SentBy(signals, now)
    {
      signals := [];
      for i := 0 to |identities|
        invariant now >= old(now) && SentTo(kind, identities[..i], old(now), signals) && SentBy(signals, now)
      {
        Pass(0);
        signals := signals + [Signal(kind, identities[i], now)];
      }
      assert identities[..|identities|] == identities;
    }

    /** Filter, signal, wait: one half of the escalation. `at` is when the filter was done. */
    method Round(kind: SignalKind, identities: seq<ProcessIdentity>, timeout: nat)
      returns (remaining: seq<ProcessIdentity>, gone: bool, signals: seq<Signal>, ghost at: nat, ghost times: seq<nat>)
      requires NoRecurrence(world) && AllSeen(world, identities, now)
      modifies this
      ensures old(now) <= at <= now && AllSeen(world, remaining, now)
      ensures |times| == |identities| && old(looks) + times <= looks && remaining == AliveAt(world, identities, times)
      ensures LooksWithin(times, old(now), at)
      ensures SeenAlive(world, remaining, identities, old(now), at)
      ensures SentTo(kind, remaining, at, signals) && SentBy(signals, now)
      ensures gone ==> AllDead(world, identities, now)
      ensures !gone ==> now >= old(now) + timeout && SomeAlive(world, remaining, old(now), now)
      ensures !gone ==> FoundAlive(remaining)
      ensures DroppedAreDead(world, identities, remaining, now)
    {
      remaining, times := Remaining(identities);
      at := now;
      signals := SignalAll(kind, remaining);
      StillDropped(world, identities, remaining, at, now);
      ghost var signalled := now;
      gone := WaitGone(remaining, timeout);
      StillDropped(world, identities, remaining, signalled, now);
      if gone {
        NoneLeft(world, identities, remaining, now);
      }
    }

    /** Terminate, wait, kill, wait. `true` means every incarnation asked for is gone for good; `false` that
        both timeouts have passed. The first thing done is to look at every incarnation once, and exactly those
        alive then are sent a termination; kills go to exactly those alive when looked at `again`, and whoever
        is alive after a `false` was sent one. All signals reach their own incarnation or nobody while no
        process id changes hands. */
    method TerminateExact(identities: seq<ProcessIdentity>, timeout: nat)
      returns (gone: bool, signals: seq<Signal>, ghost times: seq<nat>, ghost again: Option<seq<nat>>)
      requires NoRecurrence(world) && AllSeen(world, identities, now)
      modifies this
      ensures now >= old(now)
      ensures gone ==> AllDead(world, identities, now)
      ensures !gone ==> now >= old(now) + 2 * timeout && SomeAlive(world, identities, old(now), now)
      ensures !gone ==> FoundAlive(identities)
      ensures Escalates(world, identities, old(now), timeout, signals)
      ensures NoneReused(world, identities, old(now), now) ==> AllOnTarget(world, signals)
      ensures |times| == |identities| && old(looks) + times <= looks
      ensures Sends(world, AliveAt(world, identities, times), old(now), timeout, again, signals)
      ensures !gone ==> AliveHaveSignal(world, identities, now, Kill, signals)
    {
      var remaining;
      ghost var early;
      remaining, gone, signals, early, times := Round(Terminate, identities, timeout);
      TerminationsEscalate(world, identities, remaining, old(now), early, timeout, signals);
      assert signals[..|remaining|] == signals;
      again := None;
      if !gone {
        var kills;
        ghost var first := signals;
        ghost var late;
        gone, kills, late := KillRound(identities, remaining, timeout, old(now), early, first);
        again := Some(late);
        SendsBoth(world, remaining, old(now), timeout, early, late, first, kills);
        signals := signals + kills;
      }
      KeptPidsAreOnTarget(world, identities, old(now), now, timeout, signals);
    }

    /** The second half, for those that were asked to terminate and outlived the timeout. */
    method KillRound(ghost identities: seq<ProcessIdentity>, remaining: seq<ProcessIdentity>, timeout: nat,
                     ghost from: nat, ghost early: nat, ghost first: seq<Signal>)
      returns (gone: bool, kills: seq<Signal>, ghost times: seq<nat>)
      requires NoRecurrence(world) && AllSeen(world, remaining, now) && now >= from + timeout
      requires Escalates(world, identities, from, timeout, first) && SentTo(Terminate, remaining, early, first)
      requires SentBy(first, now) && DroppedAreDead(world, identities, remaining, now)
      requires forall identity :: identity in remaining ==> identity in identities
      modifies this
      ensures now >= old(now) && old(looks) <= looks
      ensures Escalates(world, identities, from, timeout, first + kills) && SentBy(first + kills, now)
      ensures gone ==> AllDead(world, identities, now)
      ensures !gone ==> now >= old(now) + timeout && SomeAlive(world, identities, old(now), now)
      ensures !gone ==> FoundAlive(identities)
      ensures !gone ==> AliveHaveSignal(world, identities, now, Kill, first + kills)
      ensures |times| == |remaining| && forall i :: 0 <= i < |times| ==> times[i] >= from + timeout
      ensures SentTo(Kill, AliveAt(world, remaining, times), from + timeout, kills)
    {
      ghost var waited := now;
      var stubborn;
      ghost var late;
      stubborn, gone, kills, late, times := Round(Kill, remaining, timeout);
      StillDropped(world, identities, remaining, waited, now);
      SentByJoins(first, waited, kills, now);
      if gone {
        KillsEscalate(world, identities, remaining, stubborn, from, early, waited, late, timeout, first, kills);
        NoneLeft(world, identities, remaining, now);
      } else {
        KillRoundLeaves(world, identities, remaining, stubborn, from, early, waited, late, now, timeout,
                        looks[|looks| - 1], first, kills);
      }
    }
  }

  lemma SentByJoins(first: seq<Signal>, early: nat, second: seq<Signal>, late: nat)
    requires SentBy(first, early) && SentBy(second, late) && early <= late
    ensures SentBy(first + second, late)
  {
  }

  /** What a second round that ends with a timeout leaves. */
  lemma KillRoundLeaves(world: World, all: seq<ProcessIdentity>, some: seq<ProcessIdentity>, few: seq<ProcessIdentity>,
                        from: nat, early: nat, waited: nat, late: nat, now: nat, timeout: nat, last: nat,
                        first: seq<Signal>, kills: seq<Signal>)
    requires Escalates(world, all, from, timeout, first) && SentTo(Terminate, some, early, first)
    requires SeenAlive(world, few, some, waited, late) && SentTo(Kill, few, late, kills)
    requires from + timeout <= waited <= late && forall identity :: identity in some ==> identity in all
    requires DroppedAreDead(world, all, some, now) && DroppedAreDead(world, some, few, now)
    requires SomeAlive(world, few, waited, now) && SomeAlive(world, few, last, last)
    ensures Escalates(world, all, from, timeout, first + kills)
    ensures SomeAlive(world, all, waited, now) && SomeAlive(world, all, last, last)
    ensures AliveHaveSignal(world, all, now, Kill, first + kills)
  {
    assert forall identity :: identity in few ==> identity in all;
    KillsEscalate(world, all, some, few, from, early, waited, late, timeout, first, kills);
    SomeAliveAmong(world, few, all, waited, now);
    SomeAliveAmong(world, few, all, last, last);
    KilledHaveSignal(world, all, some, few, late, now, first, kills);
  }

  lemma LooksGrow(world: World, identities: seq<ProcessIdentity>, i: nat, times: seq<nat>, now: nat)
    requires i < |identities| && |times| == i
    ensures AliveAt(world, identities[..i + 1], times + [now]) ==
            AliveAt(world, identities[..i], times) + if Alive(world, identities[i], now) then [identities[i]] else []
  {
    assert identities[..i + 1][..i] == identities[..i] && (times + [now])[..i] == times;
  }

  lemma StillDropped(world: World, all: seq<ProcessIdentity>, some: seq<ProcessIdentity>, now: nat, later: nat)
    requires DroppedAreDead(world, all, some, now) && now <= later
    ensures DroppedAreDead(world, all, some, later)
  {
  }

  /** What was dropped is dead and what was kept is dead, so all are. */
  lemma NoneLeft(world: World, all: seq<ProcessIdentity>, some: seq<ProcessIdentity>, now: nat)
    requires DroppedAreDead(world, all, some, now) && AllDead(world, some, now)
    ensures AllDead(world, all, now)
  {
    forall i | 0 <= i < |all| && all[i] in some
      ensures DeadFrom(world, all[i], now)
    {
      var j :| 0 <= j < |some| && some[j] == all[i];
      assert DeadFrom(world, some[j], now);
    }
  }
}
