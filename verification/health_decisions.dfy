/**
 What a sample decides, said of the sample and the state before it; and what follows for runs: an unanswered route is
 left, and a better one returned to, in time.
 */
module HealthDecisions {
  import opened Wrappers
  import opened RouteHealth
  import opened PeerHealthMachine

  const SECOND: nat := 1_000_000_000

  /** A tracker that has seen a first sample and knows exactly these routes. */
  ghost predicate Settled(t: Tracker, routes: seq<RouteKey>, clock: nat)
  {
    && t.Inv(clock) && t.hasObservedStats && Keys(t.policyHealth) == routes && NoDuplicates(routes)
    && |t.policyHealth| == |routes| > 1 && t.activePolicy < |routes|
    && (t.recoveryFallback.Some? ==> t.recoveryFallback.value < |routes|)
  }

  /** The health of all routes once they are aged and the sample counts for or against the active one. */
  function HealthAt(t: Tracker, heard: bool, now: nat): (hs: seq<PolicyHealth>)
    requires t.Inv(now) && t.activePolicy < |t.policyHealth|
    ensures |hs| == |t.policyHealth|
  {
    var aged := seq(|t.policyHealth|, i requires 0 <= i < |t.policyHealth| => Decayed(t.policyHealth[i].health, now));
    var h := aged[t.activePolicy];
    assert DecayedEntries(t.policyHealth, now)[t.activePolicy].health == h;
    CountedKeepsInv(t, PeerStats(0, 0), now);
    assert h.Ok(now) by { assert Counted(t, PeerStats(0, 0), now).policyHealth[t.activePolicy].health == h; }
    aged[t.activePolicy := if heard then RecordSuccess(h, now) else RecordFailure(h, now)]
  }

  /** A more preferred route may be probed unless it has failed, and even then if the active one has been heard from. */
  predicate MayProbe(hs: seq<PolicyHealth>, active: nat, switchedAt: nat, i: nat)
    requires i < active < |hs|
  {
    !hs[i].IsFailed() || (hs[active].lastSuccess.Some? && hs[active].lastSuccess.value >= switchedAt)
  }

  predicate MayFailOver(hs: seq<PolicyHealth>, active: nat, i: nat)
    requires i < |hs|
  {
    i != active && !hs[i].IsFailed()
  }

  /** Route `p` is the less suspect of the two, or the more preferred if they are equally suspect. */
  predicate Preferred(hs: seq<PolicyHealth>, p: nat, i: nat)
    requires p < |hs| && i < |hs|
  {
    hs[p].suspicion < hs[i].suspicion || (hs[p].suspicion == hs[i].suspicion && p <= i)
  }

  ghost predicate BestProbe(hs: seq<PolicyHealth>, active: nat, switchedAt: nat, p: nat)
    requires active < |hs|
  {
    && p < active && MayProbe(hs, active, switchedAt, p)
    && forall i :: 0 <= i < active && MayProbe(hs, active, switchedAt, i) ==> Preferred(hs, p, i)
  }

  ghost predicate BestFailover(hs: seq<PolicyHealth>, active: nat, p: nat)
  {
    && p < |hs| && MayFailOver(hs, active, p)
    && forall i :: 0 <= i < |hs| && MayFailOver(hs, active, i) ==> Preferred(hs, p, i)
  }

  /** How long after a switch the next one waits: longer each time, up to sixteen minutes. */
  function Wait(switches: nat): nat
  {
    match switches
    case 0 => 15 * SECOND
    case 1 => 120 * SECOND
    case 2 => 240 * SECOND
    case 3 => 480 * SECOND
    case _ => 960 * SECOND
  }

  lemma CooldownIsWait(t: Tracker)
    ensures t.Cooldown() == Wait(t.switchCount) + t.jitter
  {
    assert PowerOfTwo(0) == 1 && PowerOfTwo(1) == 2 && PowerOfTwo(2) == 4 && PowerOfTwo(3) == 8;
  }

  /** The state a sample is judged in, and the health it is judged by. */
  lemma JudgedBy(t: Tracker, stats: PeerStats, routes: seq<RouteKey>, now: nat)
    requires Settled(t, routes, now)
    requires Classified(t, stats, now) != Idle
    ensures Synced(t, t.activePolicy, routes) == t && CountedInv(t, stats, now)
    ensures var r := Recorded(Counted(t, stats, now), t.activePolicy, Classified(t, stats, now), now);
            var hs := HealthAt(t, Classified(t, stats, now) == Sample.Healthy, now);
            && |r.policyHealth| == |hs| && Observed(t, stats, routes, now) == Judged(t, stats, now)
            && (forall i :: 0 <= i < |hs| ==> r.policyHealth[i].health == hs[i])
            && r.lastSwitch == t.lastSwitch && r.switchCount == t.switchCount && r.jitter == t.jitter
  {
    SyncedIsIdle(t, routes);
    CountedKeepsInv(t, stats, now);
  }

  ghost predicate CountedInv(t: Tracker, stats: PeerStats, now: nat)
  {
    Counted(t, stats, now).Inv(now)
  }

  lemma {:induction false} ProbeIsBest(r: Tracker, active: nat, hs: seq<PolicyHealth>)
    requires active < |r.policyHealth| == |hs| && forall i :: 0 <= i < |hs| ==> r.policyHealth[i].health == hs[i]
    ensures var best := Best(r, active, true, active);
            && (best.Some? ==> BestProbe(hs, active, r.lastSwitch, best.value))
            && (best.None? ==> forall i :: 0 <= i < active ==> !MayProbe(hs, active, r.lastSwitch, i))
  {
    BestIsLeast(r, active, true, active);
    forall i | 0 <= i < active
      ensures Eligible(r, active, true, i) == MayProbe(hs, active, r.lastSwitch, i)
    {
    }
  }

  lemma {:induction false} FailoverIsBest(r: Tracker, active: nat, hs: seq<PolicyHealth>)
    requires |r.policyHealth| == |hs| && forall i :: 0 <= i < |hs| ==> r.policyHealth[i].health == hs[i]
    ensures var best := Best(r, active, false, |hs|);
            && (best.Some? ==> BestFailover(hs, active, best.value))
            && (best.None? ==> forall i :: 0 <= i < |hs| ==> !MayFailOver(hs, active, i))
  {
    BestIsLeast(r, active, false, |hs|);
    forall i | 0 <= i < |hs|
      ensures Eligible(r, active, false, i) == MayFailOver(hs, active, i)
    {
    }
  }

  // -------------------------------------------------------------------------
  // One sample
  // -------------------------------------------------------------------------

  /**
   A sample with packets received probes a more preferred route exactly if there is one, packets were sent too, and the
   next attempt was due; the probed one is the least suspect. Either way the next attempt is put off.
   */
  lemma HeardDecides(t: Tracker, stats: PeerStats, routes: seq<RouteKey>, now: nat)
    requires Settled(t, routes, now) && stats.rxPackets > t.lastRxPackets
    ensures var (u, decision) := Observed(t, stats, routes, now);
            var hs := HealthAt(t, true, now);
            && (decision.Switch? <==> t.activePolicy > 0 && stats.txPackets > t.lastTxPackets && now >= t.nextRecoveryAttemptAt)
            && (decision.Switch? ==> decision.reason == RecoveryProbe &&
                                     BestProbe(hs, t.activePolicy, t.lastSwitch, decision.nextPolicy))
            && (!decision.Switch? ==> decision == Stay && u.activePolicy == t.activePolicy && u.lastSwitch == t.lastSwitch)
            && u.nextRecoveryAttemptAt == now + 120 * SECOND + t.jitter
            && u.lastTxPackets == stats.txPackets && u.lastRxPackets == stats.rxPackets && u.jitter == t.jitter
            && u.recoveryFallback == if decision.Switch? then Some(t.activePolicy) else None
  {
    JudgedBy(t, stats, routes, now);
    var r := Recorded(Counted(t, stats, now), t.activePolicy, Sample.Healthy, now);
    ProbeIsBest(r, t.activePolicy, HealthAt(t, true, now));
    if t.activePolicy > 0 {
      assert MayProbe(HealthAt(t, true, now), t.activePolicy, t.lastSwitch, 0);
    }
  }

  /** A sample without packets received, and none sent or not 25 s of silence, decides nothing. */
  lemma QuietDecides(t: Tracker, stats: PeerStats, routes: seq<RouteKey>, now: nat)
    requires Settled(t, routes, now) && stats.rxPackets <= t.lastRxPackets
    requires stats.txPackets <= t.lastTxPackets || now < t.SilentSince() + 25 * SECOND
    ensures Observed(t, stats, routes, now)
            == (t.(lastTxPackets := stats.txPackets, lastRxPackets := stats.rxPackets,
                   policyHealth := DecayedEntries(t.policyHealth, now)), Stay)
  {
    SyncedIsIdle(t, routes);
  }

  lemma UnhealthyDecides(r: Tracker, a: nat, hs: seq<PolicyHealth>, due: bool, now: nat)
    requires a < |r.policyHealth| == |hs| && forall i :: 0 <= i < |hs| ==> r.policyHealth[i].health == hs[i]
    requires r.recoveryFallback.Some? ==> r.recoveryFallback.value < |hs|
    requires r.lastSwitch <= now
    ensures var decision := UnhealthyDecided(r, a, true, due, now).1;
            if r.recoveryFallback.Some? && r.recoveryFallback.value != a then
              decision == Switch(r.recoveryFallback.value, RecoveryFailed)
            else if now < r.lastSwitch + Wait(r.switchCount) + r.jitter then decision == Stay
            else if due && exists i :: 0 <= i < a && MayProbe(hs, a, r.lastSwitch, i) then
              decision.Switch? && decision.reason == RecoveryProbe && BestProbe(hs, a, r.lastSwitch, decision.nextPolicy)
            else if !hs[a].IsFailed() then decision == Stay
            else if exists i :: 0 <= i < |hs| && MayFailOver(hs, a, i) then
              decision.Switch? && decision.reason == Failover && BestFailover(hs, a, decision.nextPolicy)
            else decision == if (forall i :: 0 <= i < |hs| ==> hs[i].lastSuccess.None?) && r.consecutivePeerFailures > 2
                             then PeerInactive else NoViablePolicy
  {
    var u := r.(recoveryFallback := None);
    CooldownIsWait(u);
    ProbeIsBest(u, a, hs);
    FailoverIsBest(u, a, hs);
  }

  /**
   An unanswered sample after 25 s of silence takes a probe back at once. Otherwise it waits for the time since the last
   switch; then probes if an attempt is due and some route may be probed; then, if the active route has failed, fails
   over to the least suspect other one, if one has not failed.
   */
  lemma UnansweredDecides(t: Tracker, stats: PeerStats, routes: seq<RouteKey>, now: nat)
    requires Settled(t, routes, now) && stats.rxPackets <= t.lastRxPackets && stats.txPackets > t.lastTxPackets
    requires now >= t.SilentSince() + 25 * SECOND
    ensures var decision := Observed(t, stats, routes, now).1;
            var hs, a := HealthAt(t, false, now), t.activePolicy;
            if t.recoveryFallback.Some? && t.recoveryFallback.value != a then
              decision == Switch(t.recoveryFallback.value, RecoveryFailed)
            else if now < t.lastSwitch + Wait(t.switchCount) + t.jitter then decision == Stay
            else if now >= t.nextRecoveryAttemptAt && exists i :: 0 <= i < a && MayProbe(hs, a, t.lastSwitch, i) then
              decision.Switch? && decision.reason == RecoveryProbe && BestProbe(hs, a, t.lastSwitch, decision.nextPolicy)
            else if !hs[a].IsFailed() then decision == Stay
            else if exists i :: 0 <= i < |hs| && MayFailOver(hs, a, i) then
              decision.Switch? && decision.reason == Failover && BestFailover(hs, a, decision.nextPolicy)
            else decision == if (forall i :: 0 <= i < |hs| ==> hs[i].lastSuccess.None?) && t.consecutivePeerFailures >= 2
                             then PeerInactive else NoViablePolicy
  {
    JudgedBy(t, stats, routes, now);
    var r := Recorded(Counted(t, stats, now), t.activePolicy, Unhealthy, now);
    UnhealthyDecides(r, t.activePolicy, HealthAt(t, false, now), now >= t.nextRecoveryAttemptAt, now);
  }

  /** A switch starts the clocks anew, waits longer next time unless it is ten minutes from the last, and remembers a probe. */
  lemma SwitchTakesHold(t: Tracker, stats: PeerStats, routes: seq<RouteKey>, now: nat)
    requires Settled(t, routes, now) && Observed(t, stats, routes, now).1.Switch?
    ensures var (u, decision) := Observed(t, stats, routes, now);
            && u.activePolicy == decision.nextPolicy && u.lastSwitch == u.SilentSince() == now
            && u.nextRecoveryAttemptAt == now + 120 * SECOND + t.jitter && u.jitter == t.jitter
            && u.recoveryFallback == (if decision.reason == RecoveryProbe then Some(t.activePolicy) else None)
            && (t.switchCount < 0xFFFF_FFFF ==>
                  u.switchCount == if now >= t.lastSwitch + 600 * SECOND then 1 else t.switchCount + 1)
  {
    SyncedIsIdle(t, routes);
    CountedKeepsInv(t, stats, now);
    var r := Recorded(Counted(t, stats, now), t.activePolicy, Classified(t, stats, now), now);
    UnhealthySwitches(r, t.activePolicy, stats.txPackets > t.lastTxPackets, now >= t.nextRecoveryAttemptAt, now);
  }

  lemma UnhealthySwitches(r: Tracker, a: nat, sentMore: bool, due: bool, now: nat)
    requires a < |r.policyHealth|
    ensures var (u, decision) := UnhealthyDecided(r, a, sentMore, due, now);
            decision.Switch? ==> u == Switched(r.(recoveryFallback := None), decision.nextPolicy, now,
                                               decision.reason == RecoveryProbe)
  {
  }

  /** The first sample on several routes only seeds the counters, and the attempt is put off if there was any traffic. */
  lemma FirstSampleSeeds(t: Tracker, stats: PeerStats, routes: seq<RouteKey>, now: nat)
    requires t.Inv(now) && !t.hasObservedStats && |routes| > 1
    ensures var (u, decision) := Observed(t, stats, routes, now);
            && decision == Stay && u.hasObservedStats && u.lastSwitch == t.lastSwitch && Keys(u.policyHealth) == routes
            && u.lastTxPackets == stats.txPackets && u.lastRxPackets == stats.rxPackets
            && (stats.rxPackets > 0 ==> u.SilentSince() == now)
            && (stats.rxPackets == 0 ==> u.SilentSince() == t.SilentSince())
            && u.nextRecoveryAttemptAt == if stats.txPackets > 0 || stats.rxPackets > 0 then now + 120 * SECOND + t.jitter
                                          else t.nextRecoveryAttemptAt
  {
    var s := Synced(t, t.activePolicy, routes);
    assert forall i :: 0 <= i < |routes| ==> s.policyHealth[i].route == routes[i];
    assert Keys(s.policyHealth) == routes;
  }

  // -------------------------------------------------------------------------
  // An unanswered route is left in time
  // -------------------------------------------------------------------------

  /** Packets keep going out and none come in, in samples at most `d` apart. */
  ghost predicate NoAnswer(tx: nat, rx: nat, clock: nat, d: nat, readings: seq<Reading>)
  {
    readings != [] ==>
      var n := |readings| - 1;
      && NoAnswer(tx, rx, clock, d, readings[..n])
      && readings[n].now <= Latest(clock, readings[..n]) + d
      && readings[n].stats.txPackets > (if n > 0 then readings[n - 1].stats.txPackets else tx)
      && readings[n].stats.rxPackets <= (if n > 0 then readings[n - 1].stats.rxPackets else rx)
  }

  /** A tracker still on the route it was on, with another one to go to; `last` is the last sample, if there was one. */
  ghost predicate Enduring(t: Tracker, u: Tracker, other: nat, last: Option<Reading>, clock: nat, routes: seq<RouteKey>)
  {
    && Settled(u, routes, clock) && u.activePolicy == t.activePolicy != other && other < |u.policyHealth|
    && !u.policyHealth[other].health.IsFailed()
    && u.lastSwitch == t.lastSwitch && u.switchCount == t.switchCount && u.jitter == t.jitter
    && u.SilentSince() == t.SilentSince()
    && (last.Some? ==>
          && last.value.now == clock && u.lastTxPackets == last.value.stats.txPackets
          && u.lastRxPackets == last.value.stats.rxPackets
          && (clock >= t.SilentSince() + 25 * SECOND ==>
                u.policyHealth[u.activePolicy].health.suspicion >= 2 &&
                u.policyHealth[u.activePolicy].health.lastFailure == Some(clock)))
    && (last.None? ==> u == t)
  }

  lemma UnhealthyStays(r: Tracker, a: nat, sentMore: bool, due: bool, now: nat)
    requires a < |r.policyHealth|
    ensures var (u, decision) := UnhealthyDecided(r, a, sentMore, due, now);
            !decision.Switch? ==> u == r.(recoveryFallback := None, liveness := u.liveness)
  {
  }

  /** What a sample does to a tracker it does not make switch. */
  lemma SampleLeavesSettled(t: Tracker, stats: PeerStats, routes: seq<RouteKey>, now: nat)
    requires Settled(t, routes, now) && !Observed(t, stats, routes, now).1.Switch?
    ensures var u := Observed(t, stats, routes, now).0;
            && Settled(u, routes, now) && u.activePolicy == t.activePolicy && u.lastSwitch == t.lastSwitch
            && u.switchCount == t.switchCount && u.jitter == t.jitter
            && u.lastTxPackets == stats.txPackets && u.lastRxPackets == stats.rxPackets
            && (stats.rxPackets <= t.lastRxPackets ==>
                  u.nextRecoveryAttemptAt == t.nextRecoveryAttemptAt && u.lastInboundAt == t.lastInboundAt)
  {
    SyncedIsIdle(t, routes);
    CountedKeepsInv(t, stats, now);
    ObservedKeepsTied(t, [], stats, routes, now);
    RecordedKeepsRoutes(t, stats, now);
    var r := Recorded(Counted(t, stats, now), t.activePolicy, Classified(t, stats, now), now);
    assert |Keys(r.policyHealth)| == |routes|;
    UnhealthyStays(r, t.activePolicy, stats.txPackets > t.lastTxPackets, now >= t.nextRecoveryAttemptAt, now);
  }

  lemma IdleHealth(t: Tracker, stats: PeerStats, routes: seq<RouteKey>, now: nat, i: nat)
    requires Settled(t, routes, now) && stats.rxPackets <= t.lastRxPackets && i < |t.policyHealth|
    requires now < t.SilentSince() + 25 * SECOND
    ensures var u := Observed(t, stats, routes, now).0;
            |u.policyHealth| == |t.policyHealth| && u.policyHealth[i].health == Decayed(t.policyHealth[i].health, now)
  {
    QuietDecides(t, stats, routes, now);
  }

  lemma UnansweredHealth(t: Tracker, stats: PeerStats, routes: seq<RouteKey>, now: nat, i: nat)
    requires Settled(t, routes, now) && stats.rxPackets <= t.lastRxPackets && i < |t.policyHealth|
    requires stats.txPackets > t.lastTxPackets && now >= t.SilentSince() + 25 * SECOND
    requires !Observed(t, stats, routes, now).1.Switch?
    ensures var u := Observed(t, stats, routes, now).0;
            |u.policyHealth| == |t.policyHealth| && u.policyHealth[i].health == HealthAt(t, false, now)[i]
  {
    JudgedBy(t, stats, routes, now);
    var r := Recorded(Counted(t, stats, now), t.activePolicy, Unhealthy, now);
    UnhealthyStays(r, t.activePolicy, true, now >= t.nextRecoveryAttemptAt, now);
  }

  /** What an unanswered sample does to the tracker if it does not make it switch. */
  lemma UnansweredLeaves(t: Tracker, stats: PeerStats, routes: seq<RouteKey>, now: nat)
    requires Settled(t, routes, now) && stats.rxPackets <= t.lastRxPackets && stats.txPackets > t.lastTxPackets
    requires !Observed(t, stats, routes, now).1.Switch?
    ensures var u := Observed(t, stats, routes, now).0;
            && |u.policyHealth| == |t.policyHealth|
            && (forall i :: 0 <= i < |t.policyHealth| && i != t.activePolicy ==>
                  u.policyHealth[i].health == Decayed(t.policyHealth[i].health, now))
            && (now >= t.SilentSince() + 25 * SECOND ==>
                  u.policyHealth[t.activePolicy].health == HealthAt(t, false, now)[t.activePolicy])
  {
    var u := Observed(t, stats, routes, now).0;
    forall i | 0 <= i < |t.policyHealth|
      ensures |u.policyHealth| == |t.policyHealth|
      ensures u.policyHealth[i].health ==
              if now >= t.SilentSince() + 25 * SECOND then HealthAt(t, false, now)[i] else Decayed(t.policyHealth[i].health, now)
    {
      if now >= t.SilentSince() + 25 * SECOND {
        UnansweredHealth(t, stats, routes, now, i);
      } else {
        IdleHealth(t, stats, routes, now, i);
      }
    }
  }

  /** Two unanswered samples in a row fail a route, if they are less than ten minutes apart. */
  lemma SecondFailureFails(t: Tracker, last: nat, now: nat)
    requires t.Inv(now) && t.activePolicy < |t.policyHealth|
    requires var h := t.policyHealth[t.activePolicy].health;
             h.suspicion >= 2 && h.lastFailure == Some(last) && last <= now < last + 600 * SECOND
    ensures HealthAt(t, false, now)[t.activePolicy].IsFailed()
  {
  }

  lemma OthersStayViable(t: Tracker, other: nat, now: nat)
    requires t.Inv(now) && t.activePolicy < |t.policyHealth| && other < |t.policyHealth| && other != t.activePolicy
    requires !t.policyHealth[other].health.IsFailed()
    ensures !Decayed(t.policyHealth[other].health, now).IsFailed()
    ensures MayFailOver(HealthAt(t, false, now), t.activePolicy, other)
  {
    NotFailedForever(t.policyHealth[other].health, now);
  }

  lemma EnduringStays(t: Tracker, u: Tracker, other: nat, last: Option<Reading>, clock: nat, next: Reading, routes: seq<RouteKey>)
    requires Enduring(t, u, other, last, clock, routes) && clock <= next.now && u.Inv(next.now)
    requires next.stats.txPackets > u.lastTxPackets && next.stats.rxPackets <= u.lastRxPackets
    requires !Observed(u, next.stats, routes, next.now).1.Switch?
    ensures Enduring(t, Observed(u, next.stats, routes, next.now).0, other, Some(next), next.now, routes)
  {
    assert Settled(u, routes, next.now);
    OthersStayViable(u, other, next.now);
    UnansweredLeaves(u, next.stats, routes, next.now);
    SampleLeavesSettled(u, next.stats, routes, next.now);
    FailureIsNoted(u, next.now);
  }

  lemma FailureIsNoted(t: Tracker, now: nat)
    requires t.Inv(now) && t.activePolicy < |t.policyHealth|
    ensures var h := HealthAt(t, false, now)[t.activePolicy];
            h.suspicion >= 2 && h.lastFailure == Some(now)
  {
  }

  lemma EnduringLeaves(t: Tracker, u: Tracker, other: nat, last: Reading, clock: nat, next: Reading, routes: seq<RouteKey>)
    requires Enduring(t, u, other, Some(last), clock, routes) && clock <= next.now < clock + 600 * SECOND && u.Inv(next.now)
    requires next.stats.txPackets > u.lastTxPackets && next.stats.rxPackets <= u.lastRxPackets
    requires clock >= t.SilentSince() + 25 * SECOND && next.now >= t.lastSwitch + Wait(t.switchCount) + t.jitter
    ensures Observed(u, next.stats, routes, next.now).1.Switch?
  {
    assert Settled(u, routes, next.now);
    OthersStayViable(u, other, next.now);
    UnansweredDecides(u, next.stats, routes, next.now);
    SecondFailureFails(u, clock, next.now);
  }

  /** By when a tracker whose packets go unanswered has had two failures and waited out the time since its last switch. */
  function LeavesBy(t: Tracker, clock: nat, d: nat): nat
  {
    Max(Max(t.SilentSince() + 25 * SECOND, clock) + d, t.lastSwitch + Wait(t.switchCount) + t.jitter)
  }

  /**
   From any state: a tracker whose packets go unanswered, and which knows of another route that has not failed, leaves the
   one it is on by the first sample after `LeavesBy`.
   */
  lemma {:induction false} UnansweredRouteIsLeft(t: Tracker, clock: nat, d: nat, readings: seq<Reading>,
                                                 routes: seq<RouteKey>, other: nat)
    requires Settled(t, routes, clock) && InOrder(clock, readings) && d < 600 * SECOND
    requires NoAnswer(t.lastTxPackets, t.lastRxPackets, clock, d, readings)
    requires other < |t.policyHealth| && other != t.activePolicy && !t.policyHealth[other].health.IsFailed()
    ensures var (u, switches) := Watched(t, clock, readings, routes);
            if switches != [] then switches[0].from == t.activePolicy && switches[0].at <= LeavesBy(t, clock, d) + d
            else Latest(clock, readings) <= LeavesBy(t, clock, d) &&
                 Enduring(t, u, other, if readings == [] then None else Some(readings[|readings| - 1]),
                          Latest(clock, readings), routes)
    decreases |readings|
  {
    if readings != [] {
      var n := |readings| - 1;
      var before, next := readings[..n], readings[n];
      UnansweredRouteIsLeft(t, clock, d, before, routes, other);
      var (u, switches) := Watched(t, clock, before, routes);
      InvLater(u, Latest(clock, before), next.now);
      if switches == [] {
        SyncedIsIdle(u, routes);
        var last := if n == 0 then None else Some(before[n - 1]);
        if !Observed(u, next.stats, routes, next.now).1.Switch? {
          EnduringStays(t, u, other, last, Latest(clock, before), next, routes);
        }
        if next.now > LeavesBy(t, clock, d) {
          EnduringLeaves(t, u, other, before[n - 1], Latest(clock, before), next, routes);
        }
      }
    }
  }

  // -------------------------------------------------------------------------
  // A better route is returned to in time
  // -------------------------------------------------------------------------

  /** When the next attempt is due: put off by every sample with packets received. */
  function DueAt(t: Tracker, readings: seq<Reading>): nat
  {
    if readings == [] then t.nextRecoveryAttemptAt
    else
      var n := |readings| - 1;
      if readings[n].stats.rxPackets > RxBefore(t, readings, n) then readings[n].now + 120 * SECOND + t.jitter
      else DueAt(t, readings[..n])
  }

  function RxBefore(t: Tracker, readings: seq<Reading>, n: nat): nat
    requires n < |readings|
  {
    if n > 0 then readings[n - 1].stats.rxPackets else t.lastRxPackets
  }

  function TxBefore(t: Tracker, readings: seq<Reading>, n: nat): nat
    requires n < |readings|
  {
    if n > 0 then readings[n - 1].stats.txPackets else t.lastTxPackets
  }

  /** A tracker that has not switched since. */
  ghost predicate Staying(t: Tracker, u: Tracker, readings: seq<Reading>, clock: nat, routes: seq<RouteKey>)
  {
    && Settled(u, routes, clock) && u.activePolicy == t.activePolicy && u.lastSwitch == t.lastSwitch && u.jitter == t.jitter
    && u.nextRecoveryAttemptAt == DueAt(t, readings)
    && u.lastRxPackets == (if readings == [] then t.lastRxPackets else readings[|readings| - 1].stats.rxPackets)
    && u.lastTxPackets == (if readings == [] then t.lastTxPackets else readings[|readings| - 1].stats.txPackets)
  }

  lemma {:induction false} StaysUntilSwitched(t: Tracker, clock: nat, readings: seq<Reading>, routes: seq<RouteKey>)
    requires Settled(t, routes, clock) && InOrder(clock, readings) && Watched(t, clock, readings, routes).1 == []
    ensures Staying(t, Watched(t, clock, readings, routes).0, readings, Latest(clock, readings), routes)
    decreases |readings|
  {
    if readings != [] {
      var n := |readings| - 1;
      var before, next := readings[..n], readings[n];
      StaysUntilSwitched(t, clock, before, routes);
      var u := Watched(t, clock, before, routes).0;
      InvLater(u, Latest(clock, before), next.now);
      SampleLeavesSettled(u, next.stats, routes, next.now);
      if next.stats.rxPackets > u.lastRxPackets {
        HeardDecides(u, next.stats, routes, next.now);
      }
    }
  }

  /**
   In every run in which the tracker has not switched yet, a sample with packets both sent and received probes a more
   preferred route, the least suspect one, exactly if there is one and the next attempt is due: 120 s and the jitter after
   packets were last received, or when it was due to begin with if none were.
   */
  lemma BetterRouteIsTried(t: Tracker, clock: nat, readings: seq<Reading>, routes: seq<RouteKey>)
    requires Settled(t, routes, clock) && InOrder(clock, readings) && readings != []
    requires Watched(t, clock, readings[..|readings| - 1], routes).1 == []
    requires var n := |readings| - 1;
             readings[n].stats.rxPackets > RxBefore(t, readings, n) && readings[n].stats.txPackets > TxBefore(t, readings, n)
    ensures var n := |readings| - 1;
            var u := Watched(t, clock, readings[..n], routes).0;
            var decision := LastDecision(t, clock, readings, routes);
            && Settled(u, routes, readings[n].now) && u.activePolicy == t.activePolicy
            && (decision.Switch? <==> t.activePolicy > 0 && readings[n].now >= DueAt(t, readings[..n]))
            && (decision.Switch? ==> decision.reason == RecoveryProbe && decision.nextPolicy < t.activePolicy &&
                                     BestProbe(HealthAt(u, true, readings[n].now), t.activePolicy, t.lastSwitch, decision.nextPolicy))
  {
    var n := |readings| - 1;
    StaysUntilSwitched(t, clock, readings[..n], routes);
    var u := Watched(t, clock, readings[..n], routes).0;
    InvLater(u, Latest(clock, readings[..n]), readings[n].now);
    HeardDecides(u, readings[n].stats, routes, readings[n].now);
  }

  /** Every sample finds packets received, and comes before the next attempt that the one before it put off. */
  ghost predicate KeepsBusy(t: Tracker, readings: seq<Reading>)
  {
    readings != [] ==>
      var n := |readings| - 1;
      && KeepsBusy(t, readings[..n]) && readings[n].stats.rxPackets > RxBefore(t, readings, n)
      && readings[n].now < DueAt(t, readings[..n])
  }

  /** While a tracker keeps hearing from the peer without a pause of 120 s it never returns, whatever route it is on. */
  lemma {:induction false} NeverReturnsWhileBusy(t: Tracker, clock: nat, readings: seq<Reading>, routes: seq<RouteKey>)
    requires Settled(t, routes, clock) && InOrder(clock, readings) && KeepsBusy(t, readings)
    ensures Watched(t, clock, readings, routes).1 == []
    decreases |readings|
  {
    if readings != [] {
      var n := |readings| - 1;
      var before, next := readings[..n], readings[n];
      NeverReturnsWhileBusy(t, clock, before, routes);
      StaysUntilSwitched(t, clock, before, routes);
      var u := Watched(t, clock, before, routes).0;
      InvLater(u, Latest(clock, before), next.now);
      HeardDecides(u, next.stats, routes, next.now);
    }
  }
}
