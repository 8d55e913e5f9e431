/**
 The per-peer route-health machine: folds one statistics sample at a time and decides whether the
 peer fails over to another route, probes a better one, or stays put.
 */
module PeerHealthMachine {
  import opened Wrappers
  import opened Wire
  import opened AllowedIps
  import opened RouteHealth

  // durations in nanoseconds
  const MIN_POLICY_SWITCH_INTERVAL: nat := 120_000_000_000
  const INITIAL_FAILOVER_GRACE: nat := 15_000_000_000
  const MAX_SWITCH_BACKOFF_SHIFT: nat := 3
  const SWITCH_BACKOFF_RESET_INTERVAL: nat := 600_000_000_000
  const RECOVERY_PROBE_INTERVAL: nat := 120_000_000_000
  const MAX_HEALTH_JITTER: nat := 15_000_000_000
  const INBOUND_SILENCE_TIMEOUT: nat := 25_000_000_000

  /** Stable identity of a route; health is kept by it, not by position. */
  datatype RouteKey = Direct(endpoint: Option<SocketAddr>) | Relay(relay: PublicKey)

  datatype PolicyHealthEntry = PolicyHealthEntry(route: RouteKey, health: PolicyHealth)

  datatype SwitchReason = Failover | RecoveryProbe | RecoveryFailed

  datatype HealthDecision = Stay | Switch(nextPolicy: nat, reason: SwitchReason) | PeerInactive | NoViablePolicy

  datatype PeerLiveness = Unknown | Reachable | LikelyInactive

  datatype Sample = Healthy | Unhealthy | Idle

  datatype PeerStats = PeerStats(txPackets: nat, rxPackets: nat)

  // -------------------------------------------------------------------------
  // Carrying health over a new route list
  // -------------------------------------------------------------------------

  /** The first entry recorded for a route, or a fresh one. */
  function EntryFor(entries: seq<PolicyHealthEntry>, route: RouteKey): (e: PolicyHealthEntry)
    ensures e.route == route
    ensures e in entries || e == PolicyHealthEntry(route, NEW_HEALTH)
  {
    if entries == [] then PolicyHealthEntry(route, NEW_HEALTH)
    else if entries[0].route == route then entries[0]
    else EntryFor(entries[1..], route)
  }

  /** One entry per route, in route order. */
  function Aligned(entries: seq<PolicyHealthEntry>, routes: seq<RouteKey>): (r: seq<PolicyHealthEntry>)
    ensures |r| == |routes|
    ensures forall i :: 0 <= i < |routes| ==> r[i] == EntryFor(entries, routes[i])
  {
    seq(|routes|, i requires 0 <= i < |routes| => EntryFor(entries, routes[i]))
  }

  ghost predicate NoDuplicates(routes: seq<RouteKey>)
  {
    forall i, j :: 0 <= i < j < |routes| ==> routes[i] != routes[j]
  }

  function Keys(entries: seq<PolicyHealthEntry>): seq<RouteKey>
  {
    seq(|entries|, i requires 0 <= i < |entries| => entries[i].route)
  }

  lemma {:induction false} EntryForIs(entries: seq<PolicyHealthEntry>, i: nat)
    requires NoDuplicates(Keys(entries)) && i < |entries|
    ensures EntryFor(entries, entries[i].route) == entries[i]
  {
    if i > 0 {
      assert Keys(entries)[0] != Keys(entries)[i];
      assert forall k :: 0 <= k < |entries| - 1 ==> Keys(entries[1..])[k] == Keys(entries)[k + 1];
      EntryForIs(entries[1..], i - 1);
    }
  }

  /** A route that survives keeps its health, however the others are reordered, added or removed. */
  lemma SurvivorsKeepHealth(entries: seq<PolicyHealthEntry>, routes: seq<RouteKey>, i: nat, j: nat)
    requires NoDuplicates(Keys(entries)) && i < |entries| && j < |routes| && routes[j] == entries[i].route
    ensures Aligned(entries, routes)[j] == entries[i]
  {
    EntryForIs(entries, i);
  }

  // -------------------------------------------------------------------------
  // The record of switches
  // -------------------------------------------------------------------------

  datatype SwitchRecord = SwitchRecord(at: nat, from: nat, to: nat, reason: SwitchReason)

  /** How long after its predecessor a switch can come at the earliest. */
  function MinGap(reason: SwitchReason): nat
  {
    if reason == RecoveryFailed then INBOUND_SILENCE_TIMEOUT else MIN_POLICY_SWITCH_INTERVAL
  }

  /** A switch keeps its distance, starts where the last one ended, and reverts a probe if it is a failed recovery. */
  ghost predicate Follows(prev: SwitchRecord, next: SwitchRecord)
  {
    && next.at >= prev.at + MinGap(next.reason)
    && next.from == prev.to
    && (next.reason == RecoveryFailed ==> prev.reason == RecoveryProbe && next.to == prev.from)
  }

  ghost predicate Spaced(switches: seq<SwitchRecord>)
  {
    forall i {:trigger switches[i]} :: 0 <= i < |switches| - 1 ==> Follows(switches[i], switches[i + 1])
  }

  /** Any two switches are at least 25 s apart, and 120 s if the later one is not a failed recovery. */
  lemma {:induction false} SwitchesAreApart(switches: seq<SwitchRecord>, i: nat, j: nat)
    requires Spaced(switches) && i < j < |switches|
    ensures switches[j].at >= switches[i].at + MinGap(switches[j].reason)
  {
    assert Follows(switches[j - 1], switches[j]);
    if i < j - 1 {
      SwitchesAreApart(switches, i, j - 1);
    }
  }

  /** How many of the switches are (or are not) failed recoveries. */
  function Count(switches: seq<SwitchRecord>, reverted: bool): nat
  {
    if switches == [] then 0
    else Count(switches[..|switches| - 1], reverted) + (if (switches[|switches| - 1].reason == RecoveryFailed) == reverted then 1 else 0)
  }

  lemma SpacedPrefix(switches: seq<SwitchRecord>, n: nat)
    requires Spaced(switches) && n <= |switches|
    ensures Spaced(switches[..n])
  {
  }

  /** Ordinary switches take 120 s each, and every failed recovery but a leading one has a probe of its own before it. */
  lemma {:induction false} CountsAreBounded(switches: seq<SwitchRecord>)
    requires Spaced(switches) && switches != []
    ensures var first, last := switches[0], switches[|switches| - 1];
            var a, b := Count(switches, false), Count(switches, true);
            var leading := if first.reason == RecoveryFailed then 1 else 0;
            a + b == |switches| &&
            last.at >= first.at + (a + leading - 1) * MIN_POLICY_SWITCH_INTERVAL &&
            b + (if last.reason == RecoveryFailed then 0 else 1) <= a + leading
    decreases |switches|
  {
    var n := |switches| - 1;
    var before := switches[..n];
    if n == 0 {
      assert before == [];
    } else {
      SpacedPrefix(switches, n);
      CountsAreBounded(before);
      assert Follows(switches[n - 1], switches[n]);
    }
  }

  lemma FewSwitchesArithmetic(a: nat, b: nat, leading: nat, t: nat)
    requires leading <= 1 && a + leading >= 1 && b <= a + leading
    requires (a + leading - 1) * MIN_POLICY_SWITCH_INTERVAL <= t
    ensures a + b <= 2 * (t / MIN_POLICY_SWITCH_INTERVAL) + 2
  {
  }

  /** However long the run, a stretch of it that lasts `t` has at most `2 * (t / 120 s) + 2` switches. */
  lemma FewSwitches(switches: seq<SwitchRecord>, t: nat)
    requires Spaced(switches)
    requires switches != [] ==> switches[|switches| - 1].at <= switches[0].at + t
    ensures |switches| <= 2 * (t / MIN_POLICY_SWITCH_INTERVAL) + 2
  {
    if switches != [] {
      CountsAreBounded(switches);
      var leading := if switches[0].reason == RecoveryFailed then 1 else 0;
      FewSwitchesArithmetic(Count(switches, false), Count(switches, true), leading, t);
    }
  }

  // -------------------------------------------------------------------------
  // One sample, as a function of the tracker's state
  // -------------------------------------------------------------------------

  /** The fields of a `PeerHealth`, as a value. */
  datatype Tracker = Tracker(
    activePolicy: nat, liveness: PeerLiveness, consecutivePeerFailures: nat, lastSwitch: nat, switchCount: nat,
    nextRecoveryAttemptAt: nat, lastTxPackets: nat, lastRxPackets: nat, lastInboundAt: Option<nat>,
    hasObservedStats: bool, policyHealth: seq<PolicyHealthEntry>, recoveryFallback: Option<nat>, jitter: nat)
  {
    /** Where the inbound-silence clock starts. */
    function SilentSince(): nat
    {
      if lastInboundAt.Some? then lastInboundAt.value else lastSwitch
    }

    function Cooldown(): nat
    {
      if switchCount == 0 then INITIAL_FAILOVER_GRACE + jitter
      else
        var shift := if switchCount - 1 < MAX_SWITCH_BACKOFF_SHIFT then switchCount - 1 else MAX_SWITCH_BACKOFF_SHIFT;
        MIN_POLICY_SWITCH_INTERVAL * PowerOfTwo(shift) + jitter
    }

    predicate CooldownElapsed(now: nat)
    {
      SaturatingSub(now, lastSwitch) >= Cooldown()
    }

    predicate PolicyFailed(policy: nat)
    {
      policy < |policyHealth| && policyHealth[policy].health.IsFailed()
    }

    predicate HasAnyRouteSuccess()
    {
      exists i :: 0 <= i < |policyHealth| && policyHealth[i].health.lastSuccess.Some?
    }

    /** The active route has seen return traffic since it became active. */
    predicate FallbackValidated(active: nat)
    {
      active < |policyHealth| && var success := policyHealth[active].health.lastSuccess;
      success.Some? && success.value >= lastSwitch
    }

    /** What holds of a tracker at every time up to `clock`, whatever routes it has been given. */
    ghost predicate Inv(clock: nat)
    {
      && (forall i :: 0 <= i < |policyHealth| ==> policyHealth[i].health.Ok(clock))
      && lastSwitch <= SilentSince() <= clock
      && nextRecoveryAttemptAt >= lastSwitch + RECOVERY_PROBE_INTERVAL + jitter
      && (recoveryFallback.Some? ==> lastInboundAt.None? && hasObservedStats && switchCount >= 1)
    }
  }

  function PowerOfTwo(n: nat): (r: nat)
    ensures r >= 1
  {
    if n == 0 then 1 else 2 * PowerOfTwo(n - 1)
  }

  function NewTracker(active: nat, now: nat, jitter: nat): Tracker
  {
    Tracker(active, PeerLiveness.Unknown, 0, now, 0, now + RECOVERY_PROBE_INTERVAL + jitter, 0, 0, None, false, [], None, jitter)
  }

  function Synced(t: Tracker, active: nat, routes: seq<RouteKey>): Tracker
  {
    var last := if |routes| == 0 then 0 else |routes| - 1;
    t.(policyHealth := Aligned(t.policyHealth, routes), activePolicy := if active < last then active else last,
       recoveryFallback := if t.recoveryFallback.Some? && t.recoveryFallback.value >= |routes| then None
                           else t.recoveryFallback)
  }

  /** Whether a route may be probed (`recovery`) or failed over to. */
  predicate Eligible(t: Tracker, active: nat, recovery: bool, idx: nat)
    requires idx < |t.policyHealth|
  {
    var failed := t.policyHealth[idx].health.IsFailed();
    if recovery then !failed || t.FallbackValidated(active) else idx != active && !failed
  }

  /** The eligible route among the first `n` with the least (suspicion, index). */
  function Best(t: Tracker, active: nat, recovery: bool, n: nat): (r: Option<nat>)
    requires n <= |t.policyHealth|
    ensures r.Some? ==> r.value < n
  {
    if n == 0 then None
    else
      var best := Best(t, active, recovery, n - 1);
      if Eligible(t, active, recovery, n - 1) &&
         (best.None? || t.policyHealth[n - 1].health.suspicion < t.policyHealth[best.value].health.suspicion)
      then Some(n - 1) else best
  }

  lemma {:induction false} BestIsLeast(t: Tracker, active: nat, recovery: bool, n: nat)
    requires n <= |t.policyHealth|
    ensures var best := Best(t, active, recovery, n);
            && (best.Some? ==> Eligible(t, active, recovery, best.value))
            && forall i :: 0 <= i < n && Eligible(t, active, recovery, i) ==>
                 best.Some? && (var a, b := t.policyHealth[best.value].health.suspicion, t.policyHealth[i].health.suspicion;
                                a < b || (a == b && best.value <= i))
  {
    if n > 0 {
      BestIsLeast(t, active, recovery, n - 1);
    }
  }

  function Switched(t: Tracker, policy: nat, now: nat, recoveryProbe: bool): Tracker
  {
    var count := if SaturatingSub(now, t.lastSwitch) >= SWITCH_BACKOFF_RESET_INTERVAL then 0 else t.switchCount;
    t.(switchCount := if count < 0xFFFF_FFFF then count + 1 else count,
       activePolicy := policy, lastSwitch := now, lastInboundAt := None,
       recoveryFallback := if recoveryProbe then Some(t.activePolicy) else None,
       nextRecoveryAttemptAt := now + RECOVERY_PROBE_INTERVAL + t.jitter)
  }

  function Classified(t: Tracker, stats: PeerStats, now: nat): Sample
  {
    if stats.rxPackets > t.lastRxPackets then Sample.Healthy
    else if stats.txPackets > t.lastTxPackets && SaturatingSub(now, t.SilentSince()) >= INBOUND_SILENCE_TIMEOUT
    then Unhealthy
    else Idle
  }

  function DecayedEntries(entries: seq<PolicyHealthEntry>, now: nat): (r: seq<PolicyHealthEntry>)
    ensures |r| == |entries|
  {
    seq(|entries|, i requires 0 <= i < |entries| => entries[i].(health := Decayed(entries[i].health, now)))
  }

  function Recorded(t: Tracker, policy: nat, sample: Sample, now: nat): Tracker
    requires policy < |t.policyHealth| ==> t.policyHealth[policy].health.Ok(now)
  {
    match sample
    case Healthy =>
      t.(policyHealth := if policy < |t.policyHealth|
           then t.policyHealth[policy := t.policyHealth[policy].(health := RecordSuccess(t.policyHealth[policy].health, now))]
           else t.policyHealth,
         liveness := Reachable, consecutivePeerFailures := 0,
         nextRecoveryAttemptAt := now + RECOVERY_PROBE_INTERVAL + t.jitter)
    case Unhealthy =>
      t.(policyHealth := if policy < |t.policyHealth|
           then t.policyHealth[policy := t.policyHealth[policy].(health := RecordFailure(t.policyHealth[policy].health, now))]
           else t.policyHealth,
         consecutivePeerFailures := if t.consecutivePeerFailures < 255 then t.consecutivePeerFailures + 1 else 255)
    case Idle => t
  }

  lemma RecordedKeepsInv(t: Tracker, policy: nat, sample: Sample, now: nat)
    requires t.Inv(now) && (sample == Sample.Healthy ==> t.recoveryFallback.None?)
    ensures Recorded(t, policy, sample, now).Inv(now)
  {
  }

  /** Probes the best higher-priority route if an attempt is due and there is real traffic to ride. */
  function ProbeDecided(t: Tracker, active: nat, sentMore: bool, recoveryDue: bool, now: nat): (Tracker, HealthDecision)
    requires active < |t.policyHealth|
  {
    var best := Best(t, active, true, active);
    if sentMore && recoveryDue && best.Some?
    then (Switched(t, best.value, now, true), Switch(best.value, RecoveryProbe))
    else (t, Stay)
  }

  /** Leaves a failed route for the best other one, or says why it cannot. */
  function FailoverDecided(t: Tracker, active: nat, now: nat): (Tracker, HealthDecision)
  {
    var best := Best(t, active, false, |t.policyHealth|);
    if best.Some? then (Switched(t, best.value, now, false), Switch(best.value, Failover))
    else if !t.HasAnyRouteSuccess() && t.consecutivePeerFailures > 2
    then (t.(liveness := LikelyInactive), PeerInactive)
    else (t, NoViablePolicy)
  }

  function ProbeOrFailover(t: Tracker, active: nat, sentMore: bool, recoveryDue: bool, now: nat): (Tracker, HealthDecision)
    requires active < |t.policyHealth|
  {
    var probe := ProbeDecided(t, active, sentMore, recoveryDue, now);
    if probe.1 != Stay then probe
    else if !t.PolicyFailed(active) then (t, Stay)
    else FailoverDecided(t, active, now)
  }

  /** The decision after an unanswered sample, in strict priority order. */
  function UnhealthyDecided(t: Tracker, active: nat, sentMore: bool, recoveryDue: bool, now: nat): (Tracker, HealthDecision)
    requires active < |t.policyHealth|
  {
    var fallback, u := t.recoveryFallback, t.(recoveryFallback := None);
    if fallback.Some? && fallback.value < |t.policyHealth| && fallback.value != active then
      (Switched(u, fallback.value, now, false), Switch(fallback.value, RecoveryFailed))
    else if !u.CooldownElapsed(now) then (u, Stay)
    else ProbeOrFailover(u, active, sentMore, recoveryDue, now)
  }

  /** The first sample only seeds the counters. */
  function Seeded(t: Tracker, stats: PeerStats, now: nat): Tracker
  {
    t.(hasObservedStats := true, lastTxPackets := stats.txPackets, lastRxPackets := stats.rxPackets,
       lastInboundAt := if stats.rxPackets > 0 then Some(now) else t.lastInboundAt,
       nextRecoveryAttemptAt := if stats.txPackets > 0 || stats.rxPackets > 0 then now + RECOVERY_PROBE_INTERVAL + t.jitter
                                else t.nextRecoveryAttemptAt)
  }

  /** The sample's packet counts taken over and idle routes aged, before the active route is judged. */
  function Counted(t: Tracker, stats: PeerStats, now: nat): Tracker
  {
    t.(lastInboundAt := if stats.rxPackets > t.lastRxPackets then Some(now) else t.lastInboundAt,
       lastTxPackets := stats.txPackets, lastRxPackets := stats.rxPackets,
       policyHealth := DecayedEntries(t.policyHealth, now),
       recoveryFallback := if stats.rxPackets > t.lastRxPackets then None else t.recoveryFallback)
  }

  lemma CountedKeepsInv(t: Tracker, stats: PeerStats, now: nat)
    requires t.Inv(now)
    ensures Counted(t, stats, now).Inv(now)
  {
  }

  /** The sample classified and recorded, and the decision it leads to. */
  function Judged(s: Tracker, stats: PeerStats, now: nat): (Tracker, HealthDecision)
    requires s.Inv(now) && s.activePolicy < |s.policyHealth|
  {
    var sentMore, due := stats.txPackets > s.lastTxPackets, now >= s.nextRecoveryAttemptAt;
    var sample, c := Classified(s, stats, now), Counted(s, stats, now);
    CountedKeepsInv(s, stats, now);
    var r := Recorded(c, s.activePolicy, sample, now);
    match sample
    case Healthy => ProbeDecided(r, s.activePolicy, sentMore, due, now)
    case Idle => (r, Stay)
    case Unhealthy => UnhealthyDecided(r, s.activePolicy, sentMore, due, now)
  }

  /** One sample folded in: the new state and what the reconciler should do. */
  function Observed(t: Tracker, stats: PeerStats, routes: seq<RouteKey>, now: nat): (Tracker, HealthDecision)
    requires t.Inv(now)
  {
    var s := Synced(t, t.activePolicy, routes);
    if |routes| <= 1 then (s, Stay)
    else if !s.hasObservedStats then (Seeded(s, stats, now), Stay)
    else Judged(s, stats, now)
  }

  /** Recording a sample leaves the routes as they are. */
  lemma RecordedKeepsRoutes(t: Tracker, stats: PeerStats, now: nat)
    requires t.Inv(now) && t.activePolicy < |t.policyHealth| && Counted(t, stats, now).Inv(now)
    ensures var r := Recorded(Counted(t, stats, now), t.activePolicy, Classified(t, stats, now), now);
            Keys(r.policyHealth) == Keys(t.policyHealth) && r.activePolicy == t.activePolicy
  {
  }

  // -------------------------------------------------------------------------
  // Runs over a fixed route list
  // -------------------------------------------------------------------------

  /** Passing time keeps the invariant. */
  lemma InvLater(t: Tracker, clock: nat, now: nat)
    requires t.Inv(clock) && clock <= now
    ensures t.Inv(now)
  {
  }

  /** The state ties in with the switches made so far on this route list. */
  ghost predicate Tied(t: Tracker, switches: seq<SwitchRecord>, routes: seq<RouteKey>)
  {
    && Spaced(switches)
    && (switches != [] ==>
          var last := switches[|switches| - 1];
          && t.lastSwitch == last.at && t.activePolicy == last.to < |routes| && t.switchCount >= 1
          && (t.recoveryFallback.Some? ==> last.reason == RecoveryProbe && last.from == t.recoveryFallback.value))
  }

  /** The switches so far, and the one decided at `now` from route `from`, if any. */
  function Noted(switches: seq<SwitchRecord>, from: nat, decision: HealthDecision, now: nat): seq<SwitchRecord>
  {
    if decision.Switch? then switches + [SwitchRecord(now, from, decision.nextPolicy, decision.reason)] else switches
  }

  lemma NotedIsSpaced(switches: seq<SwitchRecord>, from: nat, decision: HealthDecision, now: nat)
    requires Spaced(switches)
    requires decision.Switch? && switches != [] ==>
               Follows(switches[|switches| - 1], SwitchRecord(now, from, decision.nextPolicy, decision.reason))
    ensures Spaced(Noted(switches, from, decision, now))
  {
  }

  /** A switch is timed from the last one: a probe by the recovery schedule, a failover by the cooldown. */
  lemma ProbeKeepsTied(t: Tracker, switches: seq<SwitchRecord>, routes: seq<RouteKey>, sentMore: bool, due: bool, now: nat)
    requires t.Inv(now) && Tied(t, switches, routes) && t.activePolicy < |t.policyHealth| == |routes|
    requires t.hasObservedStats && t.recoveryFallback.None?
    requires due ==> now >= t.lastSwitch + RECOVERY_PROBE_INTERVAL
    ensures var (u, decision) := ProbeDecided(t, t.activePolicy, sentMore, due, now);
            u.Inv(now) && Tied(u, Noted(switches, t.activePolicy, decision, now), routes)
  {
  }

  lemma CooldownIsLong(t: Tracker)
    requires t.switchCount >= 1
    ensures t.Cooldown() >= MIN_POLICY_SWITCH_INTERVAL
  {
  }

  /** Undoing a probe is the one switch that need not wait for the cooldown. */
  lemma RevertKeepsTied(t: Tracker, switches: seq<SwitchRecord>, routes: seq<RouteKey>, fallback: nat, now: nat)
    requires t.Inv(now) && Tied(t, switches, routes) && t.recoveryFallback == Some(fallback) && fallback < |routes|
    requires t.hasObservedStats && now >= t.SilentSince() + INBOUND_SILENCE_TIMEOUT
    ensures var u := Switched(t.(recoveryFallback := None), fallback, now, false);
            u.Inv(now) && Tied(u, Noted(switches, t.activePolicy, Switch(fallback, RecoveryFailed), now), routes)
  {
    NotedIsSpaced(switches, t.activePolicy, Switch(fallback, RecoveryFailed), now);
  }

  lemma FailoverKeepsTied(t: Tracker, switches: seq<SwitchRecord>, routes: seq<RouteKey>, policy: nat, now: nat)
    requires t.Inv(now) && Tied(t, switches, routes) && policy < |routes|
    requires now >= t.lastSwitch && t.CooldownElapsed(now)
    ensures var u := Switched(t, policy, now, false);
            u.Inv(now) && Tied(u, Noted(switches, t.activePolicy, Switch(policy, Failover), now), routes)
  {
    if switches != [] {
      CooldownIsLong(t);
    }
    NotedIsSpaced(switches, t.activePolicy, Switch(policy, Failover), now);
  }

  lemma UnhealthyKeepsTied(t: Tracker, switches: seq<SwitchRecord>, routes: seq<RouteKey>, sentMore: bool, due: bool, now: nat)
    requires t.Inv(now) && Tied(t, switches, routes) && t.activePolicy < |t.policyHealth| == |routes|
    requires t.hasObservedStats && now >= t.SilentSince() + INBOUND_SILENCE_TIMEOUT
    requires due ==> now >= t.lastSwitch + RECOVERY_PROBE_INTERVAL
    ensures var (u, decision) := UnhealthyDecided(t, t.activePolicy, sentMore, due, now);
            u.Inv(now) && Tied(u, Noted(switches, t.activePolicy, decision, now), routes)
  {
    var fallback, u := t.recoveryFallback, t.(recoveryFallback := None);
    if fallback.Some? && fallback.value < |routes| && fallback.value != t.activePolicy {
      RevertKeepsTied(t, switches, routes, fallback.value, now);
    } else if u.CooldownElapsed(now) {
      ProbeOrFailoverKeepsTied(u, switches, routes, sentMore, due, now);
    }
  }

  lemma ProbeOrFailoverKeepsTied(t: Tracker, switches: seq<SwitchRecord>, routes: seq<RouteKey>, sentMore: bool, due: bool, now: nat)
    requires t.Inv(now) && Tied(t, switches, routes) && t.activePolicy < |t.policyHealth| == |routes|
    requires t.hasObservedStats && t.recoveryFallback.None? && t.CooldownElapsed(now)
    requires due ==> now >= t.lastSwitch + RECOVERY_PROBE_INTERVAL
    ensures var (u, decision) := ProbeOrFailover(t, t.activePolicy, sentMore, due, now);
            u.Inv(now) && Tied(u, Noted(switches, t.activePolicy, decision, now), routes)
  {
    ProbeKeepsTied(t, switches, routes, sentMore, due, now);
    var best := Best(t, t.activePolicy, false, |t.policyHealth|);
    if best.Some? {
      FailoverKeepsTied(t, switches, routes, best.value, now);
    }
  }

  lemma JudgedKeepsTied(s: Tracker, switches: seq<SwitchRecord>, stats: PeerStats, routes: seq<RouteKey>, now: nat)
    requires s.Inv(now) && Tied(s, switches, routes) && s.activePolicy < |s.policyHealth| == |routes|
    requires s.hasObservedStats
    ensures var (u, decision) := Judged(s, stats, now);
            u.Inv(now) && Tied(u, Noted(switches, s.activePolicy, decision, now), routes)
  {
    var sentMore, due := stats.txPackets > s.lastTxPackets, now >= s.nextRecoveryAttemptAt;
    var sample, c := Classified(s, stats, now), Counted(s, stats, now);
    CountedKeepsInv(s, stats, now);
    RecordedKeepsInv(c, s.activePolicy, sample, now);
    var r := Recorded(c, s.activePolicy, sample, now);
    match sample
    case Healthy => ProbeKeepsTied(r, switches, routes, sentMore, due, now);
    case Idle =>
    case Unhealthy => UnhealthyKeepsTied(r, switches, routes, sentMore, due, now);
  }

  /** One sample keeps the invariant, and every switch it makes keeps its distance. */
  lemma ObservedKeepsTied(t: Tracker, switches: seq<SwitchRecord>, stats: PeerStats, routes: seq<RouteKey>, now: nat)
    requires t.Inv(now) && Tied(t, switches, routes)
    ensures var (u, decision) := Observed(t, stats, routes, now);
            u.Inv(now) && Tied(u, Noted(switches, Synced(t, t.activePolicy, routes).activePolicy, decision, now), routes)
  {
    var s := Synced(t, t.activePolicy, routes);
    assert s.Inv(now) && Tied(s, switches, routes);
    if |routes| > 1 && s.hasObservedStats {
      JudgedKeepsTied(s, switches, stats, routes, now);
    }
  }

  /** A sample and when it was taken. */
  datatype Reading = Reading(stats: PeerStats, now: nat)

  /** The clock never runs backwards and starts no earlier than `clock`. */
  ghost predicate InOrder(clock: nat, readings: seq<Reading>)
  {
    readings != [] ==>
      var n := |readings| - 1;
      InOrder(clock, readings[..n]) && Latest(clock, readings[..n]) <= readings[n].now
  }

  function Latest(clock: nat, readings: seq<Reading>): nat
  {
    if readings == [] then clock else readings[|readings| - 1].now
  }

  /** The state after a run of samples, and the switches made in it. */
  ghost function Watched(t: Tracker, clock: nat, readings: seq<Reading>, routes: seq<RouteKey>): (r: (Tracker, seq<SwitchRecord>))
    requires t.Inv(clock) && InOrder(clock, readings)
    ensures r.0.Inv(Latest(clock, readings)) && Tied(r.0, r.1, routes)
    decreases |readings|
  {
    if readings == [] then (t, [])
    else
      var n := |readings| - 1;
      var (u, switches) := Watched(t, clock, readings[..n], routes);
      var reading := readings[n];
      InvLater(u, Latest(clock, readings[..n]), reading.now);
      ObservedKeepsTied(u, switches, reading.stats, routes, reading.now);
      var (v, decision) := Observed(u, reading.stats, routes, reading.now);
      (v, Noted(switches, Synced(u, u.activePolicy, routes).activePolicy, decision, reading.now))
  }

  /** What happened at the last of the samples. */
  ghost function LastDecision(t: Tracker, clock: nat, readings: seq<Reading>, routes: seq<RouteKey>): HealthDecision
    requires t.Inv(clock) && InOrder(clock, readings) && readings != []
  {
    var n := |readings| - 1;
    var u := Watched(t, clock, readings[..n], routes).0;
    InvLater(u, Latest(clock, readings[..n]), readings[n].now);
    Observed(u, readings[n].stats, routes, readings[n].now).1
  }

  /** What the spacing of a record comes to between any two of its switches. */
  ghost predicate Rare(switches: seq<SwitchRecord>, i: nat, j: nat)
    requires i < j < |switches|
  {
    && switches[j].at - switches[i].at >= (if switches[j].reason == RecoveryFailed then INBOUND_SILENCE_TIMEOUT
                                           else MIN_POLICY_SWITCH_INTERVAL)
    && (switches[j].reason == RecoveryFailed ==>
          switches[j - 1].reason == RecoveryProbe && switches[j].to == switches[j - 1].from)
    && j + 1 - i <= 2 * ((switches[j].at - switches[i].at) / MIN_POLICY_SWITCH_INTERVAL) + 2
  }

  lemma SpacedIsRare(switches: seq<SwitchRecord>, i: nat, j: nat)
    requires Spaced(switches) && i < j < |switches|
    ensures Rare(switches, i, j)
  {
    SwitchesAreApart(switches, i, j);
    assert Follows(switches[j - 1], switches[j]);
    FewBetween(switches, i, j);
  }

  lemma FewBetween(switches: seq<SwitchRecord>, i: nat, j: nat)
    requires Spaced(switches) && i < j < |switches|
    ensures switches[j].at >= switches[i].at
    ensures j + 1 - i <= 2 * ((switches[j].at - switches[i].at) / MIN_POLICY_SWITCH_INTERVAL) + 2
  {
    SwitchesAreApart(switches, i, j);
    StretchIsSpaced(switches, i, j);
    var stretch, t := switches[i..j + 1], switches[j].at - switches[i].at;
    assert |stretch| == j + 1 - i && stretch[0] == switches[i] && stretch[|stretch| - 1] == switches[j];
    FewSwitches(stretch, t);
  }

  lemma StretchIsSpaced(switches: seq<SwitchRecord>, i: nat, j: nat)
    requires Spaced(switches) && i < j < |switches|
    ensures Spaced(switches[i..j + 1])
  {
    var stretch := switches[i..j + 1];
    forall k {:trigger stretch[k]} | 0 <= k < |stretch| - 1
      ensures Follows(stretch[k], stretch[k + 1])
    {
      assert Follows(switches[i + k], switches[i + k + 1]);
    }
  }

  /**
   In every run over a fixed route list, from any state, any two switches are at least 25 s apart, 120 s if the
   later one is not a failed recovery; a failed recovery undoes the probe right before it; and a stretch of the run
   that lasts `t` has at most `2 * (t / 120 s) + 2` switches.
   */
  lemma {:induction false} SwitchesAreRare(t: Tracker, clock: nat, readings: seq<Reading>, routes: seq<RouteKey>,
                                           i: nat, j: nat)
    requires t.Inv(clock) && InOrder(clock, readings)
    requires i < j < |Watched(t, clock, readings, routes).1|
    ensures Rare(Watched(t, clock, readings, routes).1, i, j)
  {
    SpacedIsRare(Watched(t, clock, readings, routes).1, i, j);
  }

  // -------------------------------------------------------------------------
  // A dead route is left in time
  // -------------------------------------------------------------------------

  /** Samples at most `d` apart with packets always going out and none coming in. */
  ghost predicate Unanswered(clock: nat, d: nat, readings: seq<Reading>)
  {
    readings != [] ==>
      var n := |readings| - 1;
      && Unanswered(clock, d, readings[..n])
      && Latest(clock, readings[..n]) <= readings[n].now <= Latest(clock, readings[..n]) + d
      && readings[n].stats.rxPackets == 0
      && (n > 0 ==> readings[n].stats.txPackets > readings[n - 1].stats.txPackets)
  }

  /** A tracker on its first route that has heard nothing since it was created, with suspicion growing on time. */
  ghost predicate Suspecting(t: Tracker, created: nat, d: nat, last: Reading, routes: seq<RouteKey>)
  {
    && t.activePolicy == 0 && t.lastSwitch == created && t.switchCount == 0 && t.lastInboundAt.None?
    && t.recoveryFallback.None? && t.hasObservedStats && t.lastRxPackets == 0
    && t.lastTxPackets == last.stats.txPackets
    && |t.policyHealth| == |routes| > 1 && Keys(t.policyHealth) == routes
    && (forall i :: 1 <= i < |t.policyHealth| ==> t.policyHealth[i].health == NEW_HEALTH)
    && var h := t.policyHealth[0].health;
       || (h == NEW_HEALTH && last.now < created + INBOUND_SILENCE_TIMEOUT)
       || (h.suspicion == 2 && h.state == Suspect && h.lastFailure == Some(last.now) &&
           created + INBOUND_SILENCE_TIMEOUT <= last.now < created + INBOUND_SILENCE_TIMEOUT + d)
       || (h.suspicion == 4 && h.lastFailure == Some(last.now) &&
           created + INBOUND_SILENCE_TIMEOUT <= last.now < created + INITIAL_FAILOVER_GRACE + t.jitter)
  }

  /** Syncing to the routes a tracker already has changes nothing. */
  lemma SyncedIsIdle(t: Tracker, routes: seq<RouteKey>)
    requires NoDuplicates(routes) && |t.policyHealth| == |routes| && Keys(t.policyHealth) == routes
    requires t.activePolicy < |routes| && (t.recoveryFallback.Some? ==> t.recoveryFallback.value < |routes|)
    ensures Synced(t, t.activePolicy, routes) == t
  {
    forall i | 0 <= i < |routes|
      ensures EntryFor(t.policyHealth, routes[i]) == t.policyHealth[i]
    {
      assert Keys(t.policyHealth)[i] == routes[i];
      EntryForIs(t.policyHealth, i);
    }
    assert Aligned(t.policyHealth, routes) == t.policyHealth;
  }

  lemma SuspicionStarts(created: nat, d: nat, jitter: nat, first: Reading, routes: seq<RouteKey>)
    requires created <= first.now <= created + d && d <= 5_000_000_000 && |routes| >= 2 && first.stats.rxPackets == 0
    ensures var t := NewTracker(0, created, jitter);
            t.Inv(first.now) && var (u, decision) := Observed(t, first.stats, routes, first.now);
            decision == Stay && u.jitter == jitter && Suspecting(u, created, d, first, routes)
  {
  }

  lemma CountingKeepsSuspicion(t: Tracker, created: nat, d: nat, last: Reading, next: Reading, routes: seq<RouteKey>)
    requires Suspecting(t, created, d, last, routes) && t.Inv(next.now)
    requires last.now <= next.now <= last.now + 5_000_000_000
    ensures Counted(t, next.stats, next.now).policyHealth == t.policyHealth
  {
  }

  /** Until it fails over, every unanswered sample leaves the tracker suspecting its route. */
  lemma SuspicionGrows(t: Tracker, created: nat, d: nat, last: Reading, next: Reading, routes: seq<RouteKey>)
    requires Suspecting(t, created, d, last, routes) && t.Inv(next.now) && NoDuplicates(routes)
    requires last.now <= next.now <= last.now + d && d <= 5_000_000_000
    requires next.stats.rxPackets == 0 && next.stats.txPackets > last.stats.txPackets
    ensures var (u, decision) := Observed(t, next.stats, routes, next.now);
            u.jitter == t.jitter &&
            if decision.Switch? then decision.reason == Failover else Suspecting(u, created, d, next, routes)
  {
    SyncedIsIdle(t, routes);
    CountingKeepsSuspicion(t, created, d, last, next, routes);
    var c := Counted(t, next.stats, next.now);
    CountedKeepsInv(t, next.stats, next.now);
    var r := Recorded(c, 0, Classified(t, next.stats, next.now), next.now);
    RecordedKeepsRoutes(t, next.stats, next.now);
    var u := r.(recoveryFallback := None);
    assert u == r;
    BestIsLeast(r, 0, false, |r.policyHealth|);
    assert Eligible(r, 0, false, 1);
  }

  function Max(a: nat, b: nat): nat
  {
    if a >= b then a else b
  }

  /** How long an unanswered tracker can hold out without switching. */
  function HoldsOut(d: nat, jitter: nat): nat
  {
    Max(INBOUND_SILENCE_TIMEOUT + d, INITIAL_FAILOVER_GRACE + jitter)
  }

  /**
   A fresh tracker on the first of several routes, whose packets all go unanswered, has failed over by the first
   sample taken `HoldsOut` after its creation, that is, within `d` more.
   */
  lemma {:induction false} DeadRouteIsLeft(created: nat, d: nat, jitter: nat, readings: seq<Reading>,
                                           routes: seq<RouteKey>)
    requires InOrder(created, readings) && Unanswered(created, d, readings)
    requires d <= 5_000_000_000 && |routes| >= 2 && NoDuplicates(routes)
    ensures var (t, switches) := Watched(NewTracker(0, created, jitter), created, readings, routes);
            if switches != [] then switches[0].reason == Failover && switches[0].from == 0 &&
                                   switches[0].at < created + HoldsOut(d, jitter) + d
            else Latest(created, readings) < created + HoldsOut(d, jitter) && t.jitter == jitter &&
                 (readings != [] ==> Suspecting(t, created, d, readings[|readings| - 1], routes))
    decreases |readings|
  {
    if readings != [] {
      var n := |readings| - 1;
      var before, next := readings[..n], readings[n];
      DeadRouteIsLeft(created, d, jitter, before, routes);
      var (u, switches) := Watched(NewTracker(0, created, jitter), created, before, routes);
      InvLater(u, Latest(created, before), next.now);
      if switches == [] {
        if n == 0 {
          SuspicionStarts(created, d, jitter, next, routes);
        } else {
          SuspicionGrows(u, created, d, before[n - 1], next, routes);
        }
      }
    }
  }

  // -------------------------------------------------------------------------
  // A route that is heard from is never left
  // -------------------------------------------------------------------------

  /** When inbound traffic was last seen: the last sample whose counter rose, or the creation. */
  function LastHeard(created: nat, readings: seq<Reading>): nat
  {
    if readings == [] then created
    else
      var n := |readings| - 1;
      var before := if n == 0 then 0 else readings[n - 1].stats.rxPackets;
      if readings[n].stats.rxPackets > before then readings[n].now else LastHeard(created, readings[..n])
  }

  /** Inbound traffic was seen within the last 25 s at every sample but the first, at which nothing is judged. */
  ghost predicate KeepsHearing(created: nat, readings: seq<Reading>)
  {
    |readings| >= 2 ==>
      var n := |readings| - 1;
      && KeepsHearing(created, readings[..n])
      && readings[n].now < LastHeard(created, readings) + INBOUND_SILENCE_TIMEOUT
  }

  /** A tracker on its first route that has no doubts about it. */
  ghost predicate Trusting(t: Tracker)
  {
    && t.activePolicy == 0 && t.recoveryFallback.None?
    && forall i :: 0 <= i < |t.policyHealth| ==> t.policyHealth[i].health.suspicion == 0
  }

  lemma TrustLasts(t: Tracker, stats: PeerStats, routes: seq<RouteKey>, now: nat)
    requires t.Inv(now) && Trusting(t)
    requires |routes| > 1 && t.hasObservedStats ==>
               stats.rxPackets > t.lastRxPackets || now < t.SilentSince() + INBOUND_SILENCE_TIMEOUT
    ensures var (u, decision) := Observed(t, stats, routes, now);
            && decision == Stay && Trusting(u) && u.lastSwitch == t.lastSwitch
            && (|routes| <= 1 ==> u.hasObservedStats == t.hasObservedStats && u.lastInboundAt == t.lastInboundAt)
            && (|routes| > 1 ==>
                  && u.hasObservedStats && u.lastRxPackets == stats.rxPackets
                  && u.SilentSince() == if stats.rxPackets > (if t.hasObservedStats then t.lastRxPackets else 0)
                                        then now else t.SilentSince())
  {
  }

  /** However often it is sampled, a tracker on the first route that keeps hearing from the peer never leaves it. */
  lemma {:induction false} LiveRouteIsKept(created: nat, jitter: nat, readings: seq<Reading>, routes: seq<RouteKey>)
    requires InOrder(created, readings) && KeepsHearing(created, readings)
    ensures var (t, switches) := Watched(NewTracker(0, created, jitter), created, readings, routes);
            && Trusting(t) && switches == []
            && (readings != [] ==> LastDecision(NewTracker(0, created, jitter), created, readings, routes) == Stay)
            && if readings != [] && |routes| > 1
               then t.hasObservedStats && t.SilentSince() == LastHeard(created, readings) &&
                    t.lastRxPackets == readings[|readings| - 1].stats.rxPackets
               else t.SilentSince() == created && !t.hasObservedStats
    decreases |readings|
  {
    if readings != [] {
      var n := |readings| - 1;
      LiveRouteIsKept(created, jitter, readings[..n], routes);
      var u := Watched(NewTracker(0, created, jitter), created, readings[..n], routes).0;
      InvLater(u, Latest(created, readings[..n]), readings[n].now);
      TrustLasts(u, readings[n].stats, routes, readings[n].now);
    }
  }
}
