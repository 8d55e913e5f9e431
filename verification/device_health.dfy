/** What the health machine promises of runs of samples, said of the device that a sequence of health passes drives. */
module DeviceHealth {
  import opened RouteHealth
  import opened PeerHealthMachine
  import opened HealthDecisions
  import opened RoutePolicies
  import opened DesiredPeers
  import opened Reconciler

  /** One peer through a sequence of passes that served it, each with the sample the device reported. */
  ghost predicate SampledThroughout(ds: seq<DesiredPeer>, hs: seq<Tracker>, decisions: seq<HealthDecision>, readings: seq<Reading>)
  {
    && |ds| == |hs| == |decisions| + 1 == |readings| + 1
    && forall i {:trigger decisions[i]} :: 0 <= i < |readings| ==>
         Sampled(ds[i], hs[i], readings[i].stats, readings[i].now, ds[i + 1], hs[i + 1], decisions[i])
  }

  lemma AlignedFirst(h: Tracker, stats: PeerStats, routes: seq<RouteKey>, now: nat)
    requires h.Inv(now) && Synced(h, h.activePolicy, routes).Inv(now)
    requires NoDuplicates(routes) && h.activePolicy < |routes|
    ensures Observed(Synced(h, h.activePolicy, routes), stats, routes, now) == Observed(h, stats, routes, now)
  {
    var s := Synced(h, h.activePolicy, routes);
    assert forall i :: 0 <= i < |routes| ==> s.policyHealth[i].route == routes[i];
    assert Keys(s.policyHealth) == routes;
    SyncedIsIdle(s, routes);
  }

  /** The switches the first `n` of these passes installed. */
  function SwitchedBy(ds: seq<DesiredPeer>, decisions: seq<HealthDecision>, readings: seq<Reading>, n: nat): seq<SwitchRecord>
    requires n <= |readings| == |decisions| < |ds|
  {
    if n == 0 then []
    else Noted(SwitchedBy(ds, decisions, readings, n - 1), ds[n - 1].activePolicy, decisions[n - 1], readings[n - 1].now)
  }

  /** The tracker and the installed switches are those of an undisturbed run over the samples reported. */
  lemma {:induction false} PassesAreWatched(ds: seq<DesiredPeer>, hs: seq<Tracker>, decisions: seq<HealthDecision>,
                                            readings: seq<Reading>, clock: nat, n: nat)
    requires SampledThroughout(ds, hs, decisions, readings) && n <= |readings|
    requires hs[0].Inv(clock) && InOrder(clock, readings[..n]) && InStep(ds[0], hs[0]) && ds[0].activePolicy < |ds[0].policies|
    requires NoDuplicates(RouteKeys(ds[0].policies))
    ensures var routes := RouteKeys(ds[0].policies);
            && InStep(ds[n], hs[n]) && ds[n].policies == ds[0].policies && ds[n].activePolicy < |ds[n].policies|
            && Watched(hs[0], clock, readings[..n], routes) == (hs[n], SwitchedBy(ds, decisions, readings, n))
  {
    var routes := RouteKeys(ds[0].policies);
    if n > 0 {
      var before, next := readings[..n - 1], readings[n - 1];
      assert readings[..n][..n - 1] == before;
      PassesAreWatched(ds, hs, decisions, readings, clock, n - 1);
      var d, h := ds[n - 1], hs[n - 1];
      InvLater(h, Latest(clock, before), next.now);
      assert Sampled(d, h, next.stats, next.now, ds[n], hs[n], decisions[n - 1]);
      AlignedFirst(h, next.stats, routes, next.now);
      ObservedAgrees(h, next.stats, routes, next.now);
      SyncedAgrees(h, h.activePolicy, d.policies);
    }
  }

  /**
   A peer on the device whose packets go unanswered, and which has another route that has not failed, is moved to another
   route by the first pass after `LeavesBy` that serves it.
   */
  lemma {:induction false} UnansweredPeerIsMoved(ds: seq<DesiredPeer>, hs: seq<Tracker>, decisions: seq<HealthDecision>,
                                                 readings: seq<Reading>, clock: nat, d: nat, other: nat)
    requires SampledThroughout(ds, hs, decisions, readings) && InOrder(clock, readings) && InStep(ds[0], hs[0])
    requires Settled(hs[0], RouteKeys(ds[0].policies), clock) && d < 600 * SECOND
    requires NoAnswer(hs[0].lastTxPackets, hs[0].lastRxPackets, clock, d, readings)
    requires other < |hs[0].policyHealth| && other != hs[0].activePolicy && !hs[0].policyHealth[other].health.IsFailed()
    requires Latest(clock, readings) > LeavesBy(hs[0], clock, d)
    ensures exists i :: 0 <= i < |readings| && decisions[i].Switch? && readings[i].now <= LeavesBy(hs[0], clock, d) + d &&
                        ds[i].activePolicy == ds[0].activePolicy && ds[i + 1] == ds[i].SetActivePolicy(decisions[i].nextPolicy)
  {
    assert readings[..|readings|] == readings;
    assert |RouteKeys(ds[0].policies)| == |ds[0].policies|;
    PassesAreWatched(ds, hs, decisions, readings, clock, |readings|);
    UnansweredRouteIsLeft(hs[0], clock, d, readings, RouteKeys(ds[0].policies), other);
    var i := FirstSwitch(ds, decisions, readings, |readings|);
    assert Sampled(ds[i], hs[i], readings[i].stats, readings[i].now, ds[i + 1], hs[i + 1], decisions[i]);
  }

  /** The pass that installed the first switch of a record. */
  lemma {:induction false} FirstSwitch(ds: seq<DesiredPeer>, decisions: seq<HealthDecision>, readings: seq<Reading>,
                                       n: nat)
    returns (i: nat)
    requires n <= |readings| == |decisions| < |ds| && SwitchedBy(ds, decisions, readings, n) != []
    ensures i < n && decisions[i].Switch?
    ensures SwitchedBy(ds, decisions, readings, n)[0]
            == SwitchRecord(readings[i].now, ds[i].activePolicy, decisions[i].nextPolicy, decisions[i].reason)
  {
    if SwitchedBy(ds, decisions, readings, n - 1) == [] {
      i := n - 1;
    } else {
      i := FirstSwitch(ds, decisions, readings, n - 1);
    }
  }
}
