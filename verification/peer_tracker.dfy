/** The tracker the reconciler keeps for each peer, updated in place by every sample. */
module PeerTracking {
  import opened Wrappers
  import opened RouteHealth
  import opened PeerHealthMachine

  /** `jitter_from_rng` from one 64-bit draw. */
  function JitterFrom(draw: nat): (r: nat)
    ensures r <= MAX_HEALTH_JITTER
  {
    draw % 16 * 1_000_000_000
  }

  /** Every whole number of seconds up to fifteen is drawn. */
  lemma EveryJitterIsDrawn(seconds: nat)
    requires seconds <= 15
    ensures JitterFrom(seconds) == seconds * 1_000_000_000
  {
  }

  class PeerHealth {
    var activePolicy: nat
    var liveness: PeerLiveness
    var consecutivePeerFailures: nat
    var lastSwitch: nat
    var switchCount: nat
    var nextRecoveryAttemptAt: nat
    var lastTxPackets: nat
    var lastRxPackets: nat
    var lastInboundAt: Option<nat>
    var hasObservedStats: bool
    var policyHealth: seq<PolicyHealthEntry>
    var recoveryFallback: Option<nat>
    const jitter: nat

    /** The fields as one value. */
    ghost function State(): Tracker
      reads this
    {
      Tracker(activePolicy, liveness, consecutivePeerFailures, lastSwitch, switchCount, nextRecoveryAttemptAt,
              lastTxPackets, lastRxPackets, lastInboundAt, hasObservedStats, policyHealth, recoveryFallback, jitter)
    }

    constructor (active: nat, now: nat, draw: nat)
      ensures State() == NewTracker(active, now, JitterFrom(draw)) && State().Inv(now)
    {
      activePolicy, liveness, consecutivePeerFailures := active, PeerLiveness.Unknown, 0;
      lastSwitch, switchCount := now, 0;
      jitter := JitterFrom(draw);
      nextRecoveryAttemptAt := now + RECOVERY_PROBE_INTERVAL + JitterFrom(draw);
      lastTxPackets, lastRxPackets, lastInboundAt, hasObservedStats := 0, 0, None, false;
      policyHealth, recoveryFallback := [], None;
    }

    method SyncPolicies(active: nat, routes: seq<RouteKey>)
      modifies this
      ensures State() == Synced(old(State()), active, routes)
    {
      var next := [];
      for n := 0 to |routes|
        invariant unchanged(this)
        invariant next == Aligned(policyHealth, routes)[..n]
      {
        next := next + [EntryFor(policyHealth, routes[n])];
      }
      policyHealth := next;
      var last := if |routes| == 0 then 0 else |routes| - 1;
      activePolicy := if active < last then active else last;
      if recoveryFallback.Some? && recoveryFallback.value >= |routes| {
        recoveryFallback := None;
      }
    }

    /** Folds one sample in and says what to do about it. */
    method Observe(stats: PeerStats, routes: seq<RouteKey>, now: nat) returns (decision: HealthDecision)
      requires State().Inv(now)
      modifies this
      ensures (State(), decision) == Observed(old(State()), stats, routes, now)
      ensures State().Inv(now)
    {
      ObservedKeepsTied(State(), [], stats, routes, now);
      SyncPolicies(activePolicy, routes);
      if |routes| <= 1 {
        return Stay;
      }
      if !hasObservedStats {
        hasObservedStats := true;
        lastTxPackets, lastRxPackets := stats.txPackets, stats.rxPackets;
        if stats.rxPackets > 0 {
          lastInboundAt := Some(now);
        }
        if stats.txPackets > 0 || stats.rxPackets > 0 {
          RecordActivity(now);
        }
        return Stay;
      }
      decision := Judge(stats, now);
    }

    method Judge(stats: PeerStats, now: nat) returns (decision: HealthDecision)
      requires State().Inv(now) && activePolicy < |policyHealth|
      modifies this
      ensures (State(), decision) == Judged(old(State()), stats, now)
    {
      var sentMore := stats.txPackets > lastTxPackets;
      var recoveryWasDue := now >= nextRecoveryAttemptAt;
      var sample := Classify(stats, now);
      CountedKeepsInv(State(), stats, now);
      Count(stats, now);
      var active := activePolicy;
      RecordSample(active, sample, now);
      match sample {
        case Healthy =>
          recoveryFallback := None;
          decision := DecideRecoveryProbe(active, sentMore, recoveryWasDue, now);
        case Idle =>
          decision := Stay;
        case Unhealthy =>
          decision := DecideAfterUnhealthy(active, |policyHealth|, sentMore, recoveryWasDue, now);
      }
    }

    /** Takes the sample's counters over and ages every route. */
    method Count(stats: PeerStats, now: nat)
      requires State().Inv(now)
      modifies this
      ensures State() == Counted(old(State()), stats, now).(recoveryFallback := old(recoveryFallback))
    {
      var receivedMore := stats.rxPackets > lastRxPackets;
      if receivedMore {
        lastInboundAt := Some(now);
      }
      lastTxPackets, lastRxPackets := stats.txPackets, stats.rxPackets;
      DecayAll(now);
    }

    method Classify(stats: PeerStats, now: nat) returns (sample: Sample)
      ensures sample == Classified(State(), stats, now)
    {
      var receivedMore := stats.rxPackets > lastRxPackets;
      var sentMore := stats.txPackets > lastTxPackets;
      if receivedMore {
        return Sample.Healthy;
      }
      var anchor := if lastInboundAt.Some? then lastInboundAt.value else lastSwitch;
      if sentMore && SaturatingSub(now, anchor) >= INBOUND_SILENCE_TIMEOUT {
        return Unhealthy;
      }
      return Idle;
    }

    /** Ages every route. */
    method DecayAll(now: nat)
      requires forall i :: 0 <= i < |policyHealth| ==> policyHealth[i].health.Ok(now)
      modifies this`policyHealth
      ensures policyHealth == DecayedEntries(old(policyHealth), now)
    {
      ghost var before := policyHealth;
      for i := 0 to |policyHealth|
        invariant |policyHealth| == |before|
        invariant forall k :: 0 <= k < i ==> policyHealth[k] == DecayedEntries(before, now)[k]
        invariant forall k :: i <= k < |before| ==> policyHealth[k] == before[k]
      {
        var health := Decay(policyHealth[i].health, now);
        policyHealth := policyHealth[i := policyHealth[i].(health := health)];
      }
    }

    method RecordSample(policy: nat, sample: Sample, now: nat)
      requires policy < |policyHealth| ==> policyHealth[policy].health.Ok(now)
      modifies this
      ensures State() == Recorded(old(State()), policy, sample, now)
    {
      match sample {
        case Healthy =>
          if policy < |policyHealth| {
            var entry := policyHealth[policy];
            policyHealth := policyHealth[policy := entry.(health := RecordSuccess(entry.health, now))];
          }
          liveness := Reachable;
          consecutivePeerFailures := 0;
          RecordActivity(now);
        case Unhealthy =>
          consecutivePeerFailures := if consecutivePeerFailures < 255 then consecutivePeerFailures + 1 else 255;
          if policy < |policyHealth| {
            var entry := policyHealth[policy];
            policyHealth := policyHealth[policy := entry.(health := RecordFailure(entry.health, now))];
          }
        case Idle =>
      }
    }

    method DecideAfterUnhealthy(active: nat, policyCount: nat, sentMore: bool, recoveryDue: bool, now: nat)
      returns (decision: HealthDecision)
      requires active < |policyHealth| == policyCount
      modifies this
      ensures (State(), decision) == UnhealthyDecided(old(State()), active, sentMore, recoveryDue, now)
    {
      var fallback := recoveryFallback;
      recoveryFallback := None;
      if fallback.Some? && fallback.value < policyCount && fallback.value != active {
        SwitchTo(fallback.value, now, false);
        return Switch(fallback.value, RecoveryFailed);
      }
      var elapsed := CooldownElapsed(now);
      if !elapsed {
        return Stay;
      }
      decision := DecideRecoveryProbe(active, sentMore, recoveryDue, now);
      if decision != Stay {
        return;
      }
      if active < |policyHealth| && policyHealth[active].health.IsFailed() {
        decision := FailOver(active, policyCount, now);
        return;
      }
      return Stay;
    }

    method FailOver(active: nat, policyCount: nat, now: nat) returns (decision: HealthDecision)
      requires |policyHealth| == policyCount
      modifies this
      ensures (State(), decision) == FailoverDecided(old(State()), active, now)
    {
      var next := BestFailoverPolicy(active, policyCount);
      if next.Some? {
        SwitchTo(next.value, now, false);
        return Switch(next.value, Failover);
      }
      if !(exists i :: 0 <= i < |policyHealth| && policyHealth[i].health.lastSuccess.Some?) &&
         consecutivePeerFailures > 2 {
        liveness := LikelyInactive;
        return PeerInactive;
      }
      return NoViablePolicy;
    }

    method DecideRecoveryProbe(active: nat, sentMore: bool, recoveryDue: bool, now: nat)
      returns (decision: HealthDecision)
      requires active < |policyHealth|
      modifies this
      ensures (State(), decision) == ProbeDecided(old(State()), active, sentMore, recoveryDue, now)
    {
      if !sentMore || !recoveryDue {
        return Stay;
      }
      var next := BestRecoveryPolicy(active);
      if next.Some? {
        SwitchTo(next.value, now, true);
        return Switch(next.value, RecoveryProbe);
      }
      return Stay;
    }

    /** The least suspect route above the active one that is worth a probe, ties going to the more preferred. */
    method BestRecoveryPolicy(active: nat) returns (best: Option<nat>)
      requires active < |policyHealth|
      ensures best == Best(State(), active, true, active)
    {
      if active == 0 {
        return None;
      }
      var success := policyHealth[active].health.lastSuccess;
      var validated := success.Some? && success.value >= lastSwitch;
      best := None;
      for idx := 0 to active
        invariant best == Best(State(), active, true, idx)
      {
        if !policyHealth[idx].health.IsFailed() || validated {
          if best.None? || policyHealth[idx].health.suspicion < policyHealth[best.value].health.suspicion {
            best := Some(idx);
          }
        }
      }
    }

    /** The least suspect route that is neither active nor failed, ties going to the more preferred. */
    method BestFailoverPolicy(active: nat, policyCount: nat) returns (best: Option<nat>)
      requires policyCount <= |policyHealth|
      ensures best == Best(State(), active, false, policyCount)
    {
      best := None;
      for idx := 0 to policyCount
        invariant best == Best(State(), active, false, idx)
      {
        if idx != active && !policyHealth[idx].health.IsFailed() {
          if best.None? || policyHealth[idx].health.suspicion < policyHealth[best.value].health.suspicion {
            best := Some(idx);
          }
        }
      }
    }

    method CooldownElapsed(now: nat) returns (elapsed: bool)
      ensures elapsed == State().CooldownElapsed(now)
    {
      var cooldown := INITIAL_FAILOVER_GRACE + jitter;
      if switchCount != 0 {
        var shift := if switchCount - 1 < MAX_SWITCH_BACKOFF_SHIFT then switchCount - 1 else MAX_SWITCH_BACKOFF_SHIFT;
        cooldown := MIN_POLICY_SWITCH_INTERVAL * PowerOfTwo(shift) + jitter;
      }
      return SaturatingSub(now, lastSwitch) >= cooldown;
    }

    /** Defers the next recovery probe. */
    method RecordActivity(now: nat)
      modifies this`nextRecoveryAttemptAt
      ensures nextRecoveryAttemptAt == now + RECOVERY_PROBE_INTERVAL + jitter
    {
      nextRecoveryAttemptAt := now + RECOVERY_PROBE_INTERVAL + jitter;
    }

    method SwitchTo(policy: nat, now: nat, recoveryProbe: bool)
      modifies this
      ensures State() == Switched(old(State()), policy, now, recoveryProbe)
    {
      var previous := activePolicy;
      if SaturatingSub(now, lastSwitch) >= SWITCH_BACKOFF_RESET_INTERVAL {
        switchCount := 0;
      }
      if switchCount < 0xFFFF_FFFF {
        switchCount := switchCount + 1;
      }
      activePolicy := policy;
      lastSwitch := now;
      lastInboundAt := None;
      recoveryFallback := if recoveryProbe then Some(previous) else None;
      RecordActivity(now);
    }
  }
}
