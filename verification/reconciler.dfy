/**
 The reconciler: it drives the device towards a network map, and failovers decided by route health
 towards the device, keeping what is desired, what is tracked and what is installed in agreement.
 */
module Reconciler {
  import opened Wrappers
  import opened Wire
  import opened PeerConfigs
  import opened RouteHealth
  import opened PeerHealthMachine
  import opened RoutePolicies
  import opened DesiredPeers
  import opened PeerTracking

  datatype ReconcileError = DeviceError

  type Peers = map<PublicKey, PeerConfig>
  type Desired = map<PublicKey, DesiredPeer>
  type Health = map<PublicKey, Tracker>

  /** A sample the device handed out. */
  datatype Report = Report(key: PublicKey, stats: PeerStats)

  /** The running device, as its client sees it. Any command may be refused, and then it changes nothing. */
  class DeviceClient {
    var peers: Peers
    /** How many writes were made and how many commands refused so far, and the samples handed out. */
    ghost var writes: nat
    ghost var refusals: nat
    ghost var reports: seq<Report>

    method AddPeer(config: PeerConfig) returns (ok: bool)
      modifies this`peers, this`writes, this`refusals
      ensures peers == if ok then old(peers)[config.publicKey := config] else old(peers)
      ensures refusals == old(refusals) + if ok then 0 else 1
      ensures writes == old(writes) + if ok then 1 else 0
    {
      ok := *;
      if ok {
        peers, writes := peers[config.publicKey := config], writes + 1;
      } else {
        refusals := refusals + 1;
      }
    }

    method UpdatePeer(config: PeerConfig) returns (ok: bool)
      modifies this`peers, this`writes, this`refusals
      ensures ok ==> config.publicKey in old(peers)
      ensures peers == if ok then old(peers)[config.publicKey := config] else old(peers)
      ensures refusals == old(refusals) + if ok then 0 else 1
      ensures writes == old(writes) + if ok then 1 else 0
    {
      ok := *;
      ok := ok && config.publicKey in peers;
      if ok {
        peers, writes := peers[config.publicKey := config], writes + 1;
      } else {
        refusals := refusals + 1;
      }
    }

    method RemovePeer(key: PublicKey) returns (ok: bool)
      modifies this`peers, this`writes, this`refusals
      ensures peers == if ok then old(peers) - {key} else old(peers)
      ensures refusals == old(refusals) + if ok then 0 else 1
      ensures writes == old(writes) + if ok then 1 else 0
    {
      ok := *;
      if ok {
        peers, writes := peers - {key}, writes + 1;
      } else {
        refusals := refusals + 1;
      }
    }

    method GetPeer(key: PublicKey) returns (stats: Option<PeerStats>)
      modifies this`refusals, this`reports
      ensures refusals == old(refusals) + if stats.Some? then 0 else 1
      ensures reports == if stats.Some? then old(reports) + [Report(key, stats.value)] else old(reports)
    {
      stats := *;
      if stats.Some? {
        reports := reports + [Report(key, stats.value)];
      } else {
        refusals := refusals + 1;
      }
    }

    method ListPeers() returns (keys: Option<set<PublicKey>>)
      modifies this`refusals
      ensures keys.Some? ==> keys.value == peers.Keys
      ensures refusals == old(refusals) + if keys.Some? then 0 else 1
    {
      var ok: bool := *;
      if !ok {
        refusals := refusals + 1;
        return None;
      }
      keys := Some(peers.Keys);
    }
  }

  // -------------------------------------------------------------------------
  // The three views of a peer
  // -------------------------------------------------------------------------

  /** What is desired, tracked and installed for a peer say the same. */
  ghost predicate Agree(k: PublicKey, desired: Desired, health: Health, peers: Peers)
  {
    && k in desired && k in health && k in peers
    && peers[k] == desired[k].Config()
    && InStep(desired[k], health[k])
  }

  ghost predicate AllAgree(keys: set<PublicKey>, desired: Desired, health: Health, peers: Peers)
  {
    forall k {:trigger Agree(k, desired, health, peers)} :: k in keys ==> Agree(k, desired, health, peers)
  }

  lemma AgreeingPeersAreInstalled(desired: Desired, health: Health, peers: Peers)
    requires AllAgree(desired.Keys, desired, health, peers)
    ensures desired.Keys <= peers.Keys
  {
    forall k | k in desired
      ensures k in peers
    {
      assert Agree(k, desired, health, peers);
    }
  }

  ghost predicate SameBut<V>(key: PublicKey, m: map<PublicKey, V>, n: map<PublicKey, V>)
  {
    forall k {:trigger Lookup(m, k)} {:trigger Lookup(n, k)} :: k != key ==> Lookup(m, k) == Lookup(n, k)
  }

  lemma OneMoreAgrees(keys: set<PublicKey>, key: PublicKey, desired: Desired, health: Health, peers: Peers,
                      laterHealth: Health, laterPeers: Peers)
    requires AllAgree(keys, desired, health, peers) && Agree(key, desired, laterHealth, laterPeers)
    requires SameBut(key, health, laterHealth) && SameBut(key, peers, laterPeers)
    ensures AllAgree(keys + {key}, desired, laterHealth, laterPeers)
  {
    forall k {:trigger Agree(k, desired, laterHealth, laterPeers)} | k in keys && k != key
      ensures Agree(k, desired, laterHealth, laterPeers)
    {
      assert Agree(k, desired, health, peers);
      assert Lookup(health, k) == Lookup(laterHealth, k) && Lookup(peers, k) == Lookup(laterPeers, k);
    }
  }

  ghost predicate DesiredOk(desired: Desired)
  {
    forall k {:trigger OkFor(k, desired[k])} :: k in desired ==> OkFor(k, desired[k])
  }

  ghost predicate OkFor(k: PublicKey, d: DesiredPeer)
  {
    d.publicKey == k && d.Ok()
  }

  ghost predicate HealthOk(health: Health, clock: nat)
  {
    forall k {:trigger health[k].Inv(clock)} :: k in health ==> health[k].Inv(clock)
  }

  /** Every configuration remembered as applied is still installed. */
  ghost predicate AppliedOk(applied: Peers, peers: Peers)
  {
    forall k :: k in applied ==> k in peers && peers[k] == applied[k]
  }

  /** The configuration remembered as applied is the desired one. */
  ghost predicate AllApplied(keys: set<PublicKey>, desired: Desired, applied: Peers)
  {
    forall k {:trigger AsDesired(k, desired, applied)} :: k in keys ==> AsDesired(k, desired, applied)
  }

  ghost predicate AsDesired(k: PublicKey, desired: Desired, applied: Peers)
  {
    k in desired && Lookup(applied, k) == Some(desired[k].Config())
  }

  lemma OneMoreApplied(keys: set<PublicKey>, key: PublicKey, desired: Desired, applied: Peers, later: Peers)
    requires AllApplied(keys, desired, applied) && SameBut(key, applied, later)
    requires AsDesired(key, desired, later)
    ensures AllApplied(keys + {key}, desired, later)
  {
    forall k {:trigger AsDesired(k, desired, later)} | k in keys && k != key
      ensures AsDesired(k, desired, later)
    {
      assert AsDesired(k, desired, applied);
      assert Lookup(applied, k) == Lookup(later, k);
    }
  }

  lemma FromMapIsOk(desired: Desired, all: seq<MapPeer>)
    requires FromMap(desired, all, all)
    ensures DesiredOk(desired)
  {
  }

  /** A new map's peers with the selections of the tracked ones carried over. */
  ghost predicate CarriedOver(before: Desired, after: Desired, former: Desired, health: Health, carried: Health)
  {
    && after.Keys == before.Keys && carried.Keys == health.Keys
    && (forall k :: k in after ==> after[k] == AfterCarry(k, before, former, health))
    && forall k :: k in carried ==> carried[k] == HealthAfterCarry(k, before, former, health)
  }

  function Lookup<V>(m: map<PublicKey, V>, k: PublicKey): Option<V>
  {
    if k in m then Some(m[k]) else None
  }

  function AfterCarry(k: PublicKey, before: Desired, former: Desired, health: Health): DesiredPeer
    requires k in before
  {
    if k in health then CarriedPeer(before[k], health[k], Lookup(former, k)) else before[k]
  }

  function HealthAfterCarry(k: PublicKey, before: Desired, former: Desired, health: Health): Tracker
    requires k in health
  {
    if k in before then CarriedHealth(before[k], health[k], Lookup(former, k)) else health[k]
  }

  lemma CarriedPeerIsOk(d: DesiredPeer, h: Tracker, former: Option<DesiredPeer>)
    requires d.Ok()
    ensures CarriedPeer(d, h, former).Ok() && CarriedPeer(d, h, former).publicKey == d.publicKey
  {
  }

  lemma SyncedKeepsInv(h: Tracker, active: nat, routes: seq<RouteKey>, clock: nat)
    requires h.Inv(clock)
    ensures Synced(h, active, routes).Inv(clock)
  {
  }

  lemma CarryKeepsOk(before: Desired, after: Desired, former: Desired, health: Health, carried: Health, clock: nat)
    requires CarriedOver(before, after, former, health, carried) && DesiredOk(before) && HealthOk(health, clock)
    ensures DesiredOk(after) && HealthOk(carried, clock)
  {
    forall k | k in after
      ensures OkFor(k, after[k])
    {
      assert OkFor(k, before[k]);
      if k in health {
        CarriedPeerIsOk(before[k], health[k], Lookup(former, k));
      }
    }
    forall k | k in carried
      ensures carried[k].Inv(clock)
    {
      assert health[k].Inv(clock);
      if k in before {
        var h, d := health[k], before[k];
        SyncedKeepsInv(h, CarriedIndex(d.policies, OldActiveRoute(h, Lookup(former, k))), RouteKeys(d.policies), clock);
      }
    }
  }

  /** Peers whose views agreed still have them agree. */
  ghost predicate KeepAgreeing(d0: Desired, h0: Health, p0: Peers, d: Desired, h: Health, p: Peers)
  {
    forall k {:trigger Agree(k, d, h, p)} :: Agree(k, d0, h0, p0) ==> Agree(k, d, h, p)
  }

  lemma StillAgreeing(d0: Desired, h0: Health, p0: Peers, d: Desired, h: Health, p: Peers,
                      d1: Desired, h1: Health, p1: Peers, key: PublicKey)
    requires KeepAgreeing(d0, h0, p0, d, h, p)
    requires SameBut(key, d, d1) && SameBut(key, h, h1) && SameBut(key, p, p1)
    requires Agree(key, d, h, p) ==> Agree(key, d1, h1, p1)
    ensures KeepAgreeing(d0, h0, p0, d1, h1, p1)
  {
    forall k {:trigger Agree(k, d1, h1, p1)} | Agree(k, d0, h0, p0)
      ensures Agree(k, d1, h1, p1)
    {
      assert Agree(k, d, h, p);
      if k != key {
        assert Lookup(d, k) == Lookup(d1, k) && Lookup(h, k) == Lookup(h1, k) && Lookup(p, k) == Lookup(p1, k);
      }
    }
  }

  /** One sample as the tracker sees it, and the switch it decides as the desired peer sees it. */
  ghost predicate Sampled(d: DesiredPeer, h: Tracker, stats: PeerStats, now: nat, d1: DesiredPeer, h1: Tracker,
                          decision: HealthDecision)
  {
    && Synced(h, d.activePolicy, RouteKeys(d.policies)).Inv(now)
    && (h1, decision) == Observed(Synced(h, d.activePolicy, RouteKeys(d.policies)), stats, RouteKeys(d.policies), now)
    && d1 == Chosen(d, decision)
  }

  function Chosen(d: DesiredPeer, decision: HealthDecision): DesiredPeer
  {
    if decision.Switch? then d.SetActivePolicy(decision.nextPolicy) else d
  }

  lemma DecidedAgrees(r: Tracker, sentMore: bool, due: bool, now: nat)
    requires r.activePolicy < |r.policyHealth|
    ensures var (u, decision) := UnhealthyDecided(r, r.activePolicy, sentMore, due, now);
            && u.policyHealth == r.policyHealth
            && u.activePolicy == (if decision.Switch? then decision.nextPolicy else r.activePolicy) < |r.policyHealth|
  {
  }

  lemma JudgedAgrees(t: Tracker, stats: PeerStats, now: nat)
    requires t.Inv(now) && t.activePolicy < |t.policyHealth|
    ensures var (u, decision) := Judged(t, stats, now);
            && Keys(u.policyHealth) == Keys(t.policyHealth)
            && u.activePolicy == (if decision.Switch? then decision.nextPolicy else t.activePolicy) < |t.policyHealth|
  {
    CountedKeepsInv(t, stats, now);
    RecordedKeepsRoutes(t, stats, now);
    var r := Recorded(Counted(t, stats, now), t.activePolicy, Classified(t, stats, now), now);
    DecidedAgrees(r, stats.txPackets > t.lastTxPackets, now >= t.nextRecoveryAttemptAt, now);
    assert |Keys(r.policyHealth)| == |Keys(t.policyHealth)|;
  }

  /** A sample keeps the tracker aligned with its routes, and on the policy it decides for. */
  lemma ObservedAgrees(t: Tracker, stats: PeerStats, routes: seq<RouteKey>, now: nat)
    requires t.Inv(now) && Keys(t.policyHealth) == routes && t.activePolicy < |routes|
    ensures var (u, decision) := Observed(t, stats, routes, now);
            && u.Inv(now) && Keys(u.policyHealth) == routes
            && u.activePolicy == (if decision.Switch? then decision.nextPolicy else t.activePolicy) < |routes|
  {
    var s := Synced(t, t.activePolicy, routes);
    assert forall k :: 0 <= k < |routes| ==> s.policyHealth[k].route == routes[k];
    assert Keys(s.policyHealth) == routes;
    ObservedKeepsTied(t, [], stats, routes, now);
    if |routes| > 1 && s.hasObservedStats {
      JudgedAgrees(s, stats, now);
    }
  }

  // -------------------------------------------------------------------------
  // Runs of health passes on a fixed map
  // -------------------------------------------------------------------------

  /**
   What one health pass does to a peer: a sample with the switch it decides, or nothing but an alignment with the
   policies, where the peer was not reached, the sample refused, or the switch not installed and so taken back.
   */
  ghost predicate Passed(d: DesiredPeer, h: Tracker, outcome: Option<HealthDecision>, now: nat, d1: DesiredPeer, h1: Tracker)
  {
    match outcome
    case None => d1 == d && (h1 == h || h1 == Synced(h, d.activePolicy, RouteKeys(d.policies)))
    case Some(decision) => exists stats :: Sampled(d, h, stats, now, d1, h1, decision)
  }

  ghost predicate PassedFor(k: PublicKey, d: Desired, h: Health, now: nat, d1: Desired, h1: Health)
  {
    k in d && k in d1 && (k in h ==> k in h1 && exists outcome :: Passed(d[k], h[k], outcome, now, d1[k], h1[k]))
  }

  ghost predicate AllPassed(keys: set<PublicKey>, d: Desired, h: Health, now: nat, d1: Desired, h1: Health)
  {
    forall k {:trigger PassedFor(k, d, h, now, d1, h1)} :: k in keys ==> PassedFor(k, d, h, now, d1, h1)
  }

  ghost predicate Untouched(keys: set<PublicKey>, d: Desired, h: Health, d1: Desired, h1: Health)
  {
    forall k :: k in keys ==> Lookup(d, k) == Lookup(d1, k) && Lookup(h, k) == Lookup(h1, k)
  }

  /** A sample of a peer that may be tracked only from now on. */
  ghost predicate SampledFrom(d: DesiredPeer, h: Option<Tracker>, stats: PeerStats, now: nat, d1: DesiredPeer, h1: Tracker,
                              decision: HealthDecision)
  {
    if h.Some? then Sampled(d, h.value, stats, now, d1, h1, decision)
    else exists draw: nat :: Sampled(d, NewTracker(d.activePolicy, now, JitterFrom(draw)), stats, now, d1, h1, decision)
  }

  /** A tracker aligned with the peer's policies, new if there was none. */
  ghost predicate TrackedFrom(h: Option<Tracker>, d: DesiredPeer, now: nat, tracked: Tracker)
  {
    if h.Some? then tracked == Synced(h.value, d.activePolicy, RouteKeys(d.policies))
    else exists draw: nat :: IsNew(d, now, draw, tracked)
  }

  ghost predicate IsNew(d: DesiredPeer, now: nat, draw: nat, tracked: Tracker)
  {
    tracked == Synced(NewTracker(d.activePolicy, now, JitterFrom(draw)), d.activePolicy, RouteKeys(d.policies))
  }

  lemma SampledAfter(d: DesiredPeer, h: Option<Tracker>, tracked: Tracker, stats: PeerStats, now: nat, d1: DesiredPeer,
                     h1: Tracker, decision: HealthDecision)
    requires TrackedFrom(h, d, now, tracked) && tracked.Inv(now) && d1 == Chosen(d, decision)
    requires (h1, decision) == Observed(tracked, stats, RouteKeys(d.policies), now)
    ensures SampledFrom(d, h, stats, now, d1, h1, decision)
  {
    if h.None? {
      var draw: nat :| IsNew(d, now, draw, tracked);
      assert Sampled(d, NewTracker(d.activePolicy, now, JitterFrom(draw)), stats, now, d1, h1, decision);
    } else {
      assert Sampled(d, h.value, stats, now, d1, h1, decision);
    }
  }

  /** The peer was sampled, its tracker decided on what the device reported, and the device has what was decided. */
  ghost predicate ServedBy(k: PublicKey, d0: Desired, h0: Health, p0: Peers, report: Report, now: nat, d1: Desired, h1: Health,
                           p1: Peers, decision: HealthDecision)
  {
    && k in d0 && k in d1 && k in h1 && report.key == k
    && SampledFrom(d0[k], Lookup(h0, k), report.stats, now, d1[k], h1[k], decision)
    && Lookup(p1, k) == if decision.Switch? then Some(d1[k].Config()) else Lookup(p0, k)
  }

  /** A peer with a choice of routes was sampled; one without was left alone. */
  ghost predicate Served(k: PublicKey, d0: Desired, h0: Health, p0: Peers, reports: seq<Report>, now: nat, d1: Desired,
                         h1: Health, p1: Peers)
  {
    k in d0 &&
    if |d0[k].policies| > 1
    then exists report, decision :: report in reports && ServedBy(k, d0, h0, p0, report, now, d1, h1, p1, decision)
    else Lookup(d0, k) == Lookup(d1, k) && Lookup(h0, k) == Lookup(h1, k) && Lookup(p0, k) == Lookup(p1, k)
  }

  ghost predicate AllServed(keys: set<PublicKey>, d0: Desired, h0: Health, p0: Peers, reports: seq<Report>, now: nat,
                            d1: Desired, h1: Health, p1: Peers)
  {
    forall k {:trigger Served(k, d0, h0, p0, reports, now, d1, h1, p1)} :: k in keys ==>
      Served(k, d0, h0, p0, reports, now, d1, h1, p1)
  }

  lemma OneMoreServed(keys: set<PublicKey>, key: PublicKey, d0: Desired, h0: Health, p0: Peers, d: Desired, h: Health,
                      p: Peers, reports: seq<Report>, now: nat, d1: Desired, h1: Health, p1: Peers, later: seq<Report>)
    requires reports <= later && key !in keys && AllServed(keys, d0, h0, p0, reports, now, d, h, p)
    requires Lookup(d0, key) == Lookup(d, key) && Lookup(h0, key) == Lookup(h, key) && Lookup(p0, key) == Lookup(p, key)
    requires SameBut(key, d, d1) && SameBut(key, h, h1) && SameBut(key, p, p1)
    requires Served(key, d, h, p, later[|reports|..], now, d1, h1, p1)
    ensures AllServed(keys + {key}, d0, h0, p0, later, now, d1, h1, p1)
  {
    forall k {:trigger Served(k, d0, h0, p0, later, now, d1, h1, p1)} | k in keys + {key}
      ensures Served(k, d0, h0, p0, later, now, d1, h1, p1)
    {
      if k == key {
        StepServed(k, d0, h0, p0, d, h, p, later[|reports|..], later, now, d1, h1, p1);
      } else {
        assert Served(k, d0, h0, p0, reports, now, d, h, p);
        assert Lookup(d, k) == Lookup(d1, k) && Lookup(h, k) == Lookup(h1, k) && Lookup(p, k) == Lookup(p1, k);
        StillServed(k, d0, h0, p0, reports, later, now, d, h, p, d1, h1, p1);
      }
    }
  }

  /** Where a pass has got to that has still to come to `keys`: the same as before for those, and the others served. */
  ghost predicate SoFar(keys: set<PublicKey>, d0: Desired, h0: Health, p0: Peers, now: nat, d: Desired, h: Health, p: Peers,
                        reports: seq<Report>)
  {
    && keys <= d0.Keys == d.Keys
    && KeepAgreeing(d0, h0, p0, d, h, p) && AllPassed(d0.Keys, d0, h0, now, d, h)
    && Untouched(keys, d0, h0, d, h) && (forall k :: k in keys ==> Lookup(p0, k) == Lookup(p, k))
    && AllServed(d0.Keys - keys, d0, h0, p0, reports, now, d, h, p)
  }

  lemma Begun(d: Desired, h: Health, p: Peers, now: nat)
    ensures SoFar(d.Keys, d, h, p, now, d, h, p, [])
  {
    PassedOver(d, h, now);
  }

  /** A pass stays in order whether the next peer is served or refused. */
  lemma OneMoreIsInOrder(keys: set<PublicKey>, key: PublicKey, d0: Desired, h0: Health, p0: Peers, now: nat, d: Desired,
                         h: Health, p: Peers, reports: seq<Report>, d1: Desired, h1: Health, p1: Peers)
    requires SoFar(keys, d0, h0, p0, now, d, h, p, reports) && key in keys && d1.Keys == d0.Keys
    requires SameBut(key, d, d1) && SameBut(key, h, h1) && SameBut(key, p, p1)
    requires Agree(key, d, h, p) ==> Agree(key, d1, h1, p1)
    requires PassedFor(key, d, h, now, d1, h1)
    ensures KeepAgreeing(d0, h0, p0, d1, h1, p1) && AllPassed(d0.Keys, d0, h0, now, d1, h1)
    ensures Untouched(keys - {key}, d0, h0, d1, h1)
  {
    StillAgreeing(d0, h0, p0, d, h, p, d1, h1, p1, key);
    assert keys - {key} + {key} == keys;
    OneMorePassed(d0, h0, keys - {key}, key, d, h, now, d1, h1);
  }

  lemma OneMoreDone(keys: set<PublicKey>, key: PublicKey, d0: Desired, h0: Health, p0: Peers, now: nat, d: Desired,
                    h: Health, p: Peers, reports: seq<Report>, d1: Desired, h1: Health, p1: Peers, later: seq<Report>)
    requires SoFar(keys, d0, h0, p0, now, d, h, p, reports) && key in keys && d1.Keys == d0.Keys && reports <= later
    requires SameBut(key, d, d1) && SameBut(key, h, h1) && SameBut(key, p, p1)
    requires Agree(key, d, h, p) ==> Agree(key, d1, h1, p1)
    requires PassedFor(key, d, h, now, d1, h1)
    requires Served(key, d, h, p, later[|reports|..], now, d1, h1, p1)
    ensures SoFar(keys - {key}, d0, h0, p0, now, d1, h1, p1, later)
  {
    OneMoreIsInOrder(keys, key, d0, h0, p0, now, d, h, p, reports, d1, h1, p1);
    OneMoreServed(d0.Keys - keys, key, d0, h0, p0, d, h, p, reports, now, d1, h1, p1, later);
    assert d0.Keys - keys + {key} == d0.Keys - (keys - {key});
    forall k | k in keys - {key}
      ensures Lookup(p0, k) == Lookup(p1, k)
    {
      assert Lookup(p, k) == Lookup(p1, k);
    }
  }

  lemma StepServed(k: PublicKey, d0: Desired, h0: Health, p0: Peers, d: Desired, h: Health, p: Peers, latest: seq<Report>,
                   all: seq<Report>, now: nat, d1: Desired, h1: Health, p1: Peers)
    requires Lookup(d0, k) == Lookup(d, k) && Lookup(h0, k) == Lookup(h, k) && Lookup(p0, k) == Lookup(p, k)
    requires Served(k, d, h, p, latest, now, d1, h1, p1) && forall r :: r in latest ==> r in all
    ensures Served(k, d0, h0, p0, all, now, d1, h1, p1)
  {
    assert k in d0 && d0[k] == d[k];
    if |d0[k].policies| > 1 {
      var report, decision :| report in latest && ServedBy(k, d, h, p, report, now, d1, h1, p1, decision);
      assert report in all && ServedBy(k, d0, h0, p0, report, now, d1, h1, p1, decision);
    }
  }

  lemma StillServed(k: PublicKey, d0: Desired, h0: Health, p0: Peers, reports: seq<Report>, later: seq<Report>, now: nat,
                    d: Desired, h: Health, p: Peers, d1: Desired, h1: Health, p1: Peers)
    requires Served(k, d0, h0, p0, reports, now, d, h, p) && reports <= later
    requires Lookup(d, k) == Lookup(d1, k) && Lookup(h, k) == Lookup(h1, k) && Lookup(p, k) == Lookup(p1, k)
    ensures Served(k, d0, h0, p0, later, now, d1, h1, p1)
  {
    if |d0[k].policies| > 1 {
      var report, decision :| report in reports && ServedBy(k, d0, h0, p0, report, now, d, h, p, decision);
      assert d[k] == d1[k] && h[k] == h1[k];
      assert report in later && ServedBy(k, d0, h0, p0, report, now, d1, h1, p1, decision);
    }
  }

  lemma PassedOver(d: Desired, h: Health, now: nat)
    ensures AllPassed(d.Keys, d, h, now, d, h)
  {
    forall k {:trigger PassedFor(k, d, h, now, d, h)} | k in d
      ensures PassedFor(k, d, h, now, d, h)
    {
      assert k in h ==> Passed(d[k], h[k], None, now, d[k], h[k]);
    }
  }

  lemma OneMorePassed(d0: Desired, h0: Health, keys: set<PublicKey>, key: PublicKey, d: Desired, h: Health, now: nat,
                      d1: Desired, h1: Health)
    requires AllPassed(d0.Keys, d0, h0, now, d, h) && Untouched(keys + {key}, d0, h0, d, h)
    requires key in d0 && key !in keys && d.Keys == d0.Keys == d1.Keys
    requires SameBut(key, d, d1) && SameBut(key, h, h1)
    requires PassedFor(key, d, h, now, d1, h1)
    ensures AllPassed(d0.Keys, d0, h0, now, d1, h1) && Untouched(keys, d0, h0, d1, h1)
  {
    assert Lookup(d0, key) == Lookup(d, key) && Lookup(h0, key) == Lookup(h, key);
    forall k {:trigger PassedFor(k, d0, h0, now, d1, h1)} | k in d0
      ensures PassedFor(k, d0, h0, now, d1, h1)
    {
      assert PassedFor(k, d0, h0, now, d, h);
      assert k != key ==> Lookup(d, k) == Lookup(d1, k) && Lookup(h, k) == Lookup(h1, k);
    }
  }

  /** The tracker is on the active policy of the desired peer, which has others to switch to. */
  ghost predicate OnActive(d: DesiredPeer, h: Tracker)
  {
    h.activePolicy == d.activePolicy < |d.policies|
  }

  /** The switches installed so far, and the one of this pass, if there was one. */
  function Installed(switches: seq<SwitchRecord>, d: DesiredPeer, outcome: Option<HealthDecision>, now: nat): seq<SwitchRecord>
  {
    if outcome.None? then switches else Noted(switches, d.activePolicy, outcome.value, now)
  }

  lemma SyncedKeepsTied(h: Tracker, switches: seq<SwitchRecord>, active: nat, routes: seq<RouteKey>)
    requires Tied(h, switches, routes) && h.activePolicy == active < |routes|
    ensures Tied(Synced(h, active, routes), switches, routes) && Synced(h, active, routes).activePolicy == active
  {
  }

  /** A pass keeps the tracker tied to the switches that were installed. */
  lemma PassKeepsTied(d: DesiredPeer, h: Tracker, switches: seq<SwitchRecord>, outcome: Option<HealthDecision>, now: nat,
                      d1: DesiredPeer, h1: Tracker)
    requires h.Inv(now) && Tied(h, switches, RouteKeys(d.policies)) && OnActive(d, h) && Passed(d, h, outcome, now, d1, h1)
    ensures h1.Inv(now) && OnActive(d1, h1) && d1.policies == d.policies
    ensures Tied(h1, Installed(switches, d, outcome, now), RouteKeys(d.policies))
  {
    var routes := RouteKeys(d.policies);
    var s := Synced(h, d.activePolicy, routes);
    SyncedKeepsTied(h, switches, d.activePolicy, routes);
    SyncedKeepsInv(h, d.activePolicy, routes, now);
    SyncedAgrees(h, d.activePolicy, d.policies);
    if outcome.Some? {
      var stats :| Sampled(d, h, stats, now, d1, h1, outcome.value);
      ObservedAgrees(s, stats, routes, now);
      ObservedKeepsTied(s, switches, stats, routes, now);
    }
  }

  /** One peer through a sequence of health passes, with no new map in between. */
  ghost predicate Passes(ds: seq<DesiredPeer>, hs: seq<Tracker>, outcomes: seq<Option<HealthDecision>>, times: seq<nat>)
  {
    && |ds| == |hs| == |outcomes| + 1 == |times| + 1
    && (forall i, j :: 0 <= i <= j < |times| ==> times[i] <= times[j])
    && forall i {:trigger outcomes[i]} :: 0 <= i < |times| ==> Passed(ds[i], hs[i], outcomes[i], times[i], ds[i + 1], hs[i + 1])
  }

  /** The switches the first `n` passes installed on the device. */
  function InstalledBy(ds: seq<DesiredPeer>, outcomes: seq<Option<HealthDecision>>, times: seq<nat>, n: nat): seq<SwitchRecord>
    requires n <= |times| == |outcomes| < |ds|
  {
    if n == 0 then []
    else Installed(InstalledBy(ds, outcomes, times, n - 1), ds[n - 1], outcomes[n - 1], times[n - 1])
  }

  /** Every switch that a pass decided and installed is among them. */
  lemma {:induction false} EverySwitchIsInstalled(ds: seq<DesiredPeer>, outcomes: seq<Option<HealthDecision>>,
                                                  times: seq<nat>, n: nat, k: nat)
    returns (i: nat)
    requires k < n <= |times| == |outcomes| < |ds| && outcomes[k].Some? && outcomes[k].value.Switch?
    ensures var installed := InstalledBy(ds, outcomes, times, n);
            && i < |installed|
            && installed[i] == SwitchRecord(times[k], ds[k].activePolicy, outcomes[k].value.nextPolicy, outcomes[k].value.reason)
  {
    if k == n - 1 {
      i := |InstalledBy(ds, outcomes, times, n - 1)|;
    } else {
      i := EverySwitchIsInstalled(ds, outcomes, times, n - 1, k);
    }
  }

  lemma {:induction false} PassesKeepTied(ds: seq<DesiredPeer>, hs: seq<Tracker>, outcomes: seq<Option<HealthDecision>>,
                                          times: seq<nat>, n: nat)
    requires Passes(ds, hs, outcomes, times) && n <= |times| && OnActive(ds[0], hs[0])
    requires forall i :: 0 <= i < |times| ==> hs[0].Inv(times[i])
    ensures forall i :: 0 <= i < |times| && n <= i + 1 ==> hs[n].Inv(times[i])
    ensures OnActive(ds[n], hs[n]) && ds[n].policies == ds[0].policies
    ensures Tied(hs[n], InstalledBy(ds, outcomes, times, n), RouteKeys(ds[0].policies))
  {
    if n > 0 {
      PassesKeepTied(ds, hs, outcomes, times, n - 1);
      var switches := InstalledBy(ds, outcomes, times, n - 1);
      assert Passed(ds[n - 1], hs[n - 1], outcomes[n - 1], times[n - 1], ds[n], hs[n]) && hs[n - 1].Inv(times[n - 1]);
      PassKeepsTied(ds[n - 1], hs[n - 1], switches, outcomes[n - 1], times[n - 1], ds[n], hs[n]);
      forall i | 0 <= i < |times| && n <= i + 1
        ensures hs[n].Inv(times[i])
      {
        InvLater(hs[n], times[n - 1], times[i]);
      }
    }
  }

  /**
   The switches actually installed on the device by a sequence of health passes on one map are as rare as the decisions
   of one undisturbed tracker, though every sample is preceded by an alignment, samples may be refused, and switches
   that could not be installed are taken back.
   */
  lemma {:induction false} InstalledSwitchesAreRare(ds: seq<DesiredPeer>, hs: seq<Tracker>,
                                                    outcomes: seq<Option<HealthDecision>>, times: seq<nat>, clock: nat,
                                                    i: nat, j: nat)
    requires Passes(ds, hs, outcomes, times) && OnActive(ds[0], hs[0])
    requires hs[0].Inv(clock) && (times != [] ==> clock <= times[0])
    requires i < j < |InstalledBy(ds, outcomes, times, |times|)|
    ensures Rare(InstalledBy(ds, outcomes, times, |times|), i, j)
  {
    forall k | 0 <= k < |times|
      ensures hs[0].Inv(times[k])
    {
      InvLater(hs[0], clock, times[k]);
    }
    PassesKeepTied(ds, hs, outcomes, times, |times|);
    SpacedIsRare(InstalledBy(ds, outcomes, times, |times|), i, j);
  }

  /** The tracker is on the peer's active policy, with an entry for each of its policies. */
  ghost predicate InStep(d: DesiredPeer, h: Tracker)
  {
    h.activePolicy == d.activePolicy && Keys(h.policyHealth) == RouteKeys(d.policies)
  }

  lemma ObservedInStep(d: DesiredPeer, h: Tracker, stats: PeerStats, now: nat)
    requires h.Inv(now) && InStep(d, h) && d.Ok()
    ensures var (u, decision) := Observed(h, stats, RouteKeys(d.policies), now);
            && u.Inv(now) && InStep(Chosen(d, decision), u)
            && (decision.Switch? ==> decision.nextPolicy < |d.policies|)
  {
    ObservedAgrees(h, stats, RouteKeys(d.policies), now);
  }

  class PeerReconciler {
    const client: DeviceClient
    var directories: seq<MapPeer>
    var desired: Desired
    var health: Health
    var applied: Peers
    var lastAppliedMapUpdatedAt: Option<int>

    constructor (client: DeviceClient, directories: seq<MapPeer>)
      ensures this.client == client && this.directories == directories
      ensures desired == map[] && health == map[] && applied == map[] && lastAppliedMapUpdatedAt == None
    {
      this.client, this.directories := client, directories;
      desired, health, applied, lastAppliedMapUpdatedAt := map[], map[], map[], None;
    }

    ghost predicate Valid(clock: nat)
      reads this, client
    {
      DesiredOk(desired) && HealthOk(health, clock) && AppliedOk(applied, client.peers)
    }

    /** Brings the device in line with a map newer than the last one applied. */
    method ReconcileNetworkMap(networkMap: NetworkMap, now: nat) returns (r: Result<bool, ReconcileError>)
      requires Valid(now)
      modifies this, client
      ensures Valid(now)
      ensures r == Ok(false) <==> old(lastAppliedMapUpdatedAt).Some? && networkMap.updatedAt <= old(lastAppliedMapUpdatedAt).value
      ensures r == Ok(false) ==> unchanged(this) && unchanged(client)
      ensures r == Ok(true) ==>
                && desired.Keys == client.peers.Keys == (set p | p in networkMap.peers :: p.publicKey)
                && AllAgree(desired.Keys, desired, health, client.peers)
                && (exists rendered :: FromMap(rendered, networkMap.peers, networkMap.peers) &&
                      forall k :: k in desired ==> desired[k] == AfterCarry(k, rendered, old(desired), old(health)))
                && lastAppliedMapUpdatedAt == Some(networkMap.updatedAt)
                && directories == DirectoryServers(networkMap.peers) && AllApplied(desired.Keys, desired, applied)
      // what the device already has is not written again
      ensures r == Ok(true) && desired.Keys == old(client.peers).Keys && AllApplied(desired.Keys, desired, old(applied)) ==>
                client.writes == old(client.writes)
      ensures r.Err? <==> client.refusals > old(client.refusals)
      ensures r.Err? ==> desired == old(desired) && lastAppliedMapUpdatedAt == old(lastAppliedMapUpdatedAt) &&
                         directories == old(directories)
    {
      if lastAppliedMapUpdatedAt.Some? && networkMap.updatedAt <= lastAppliedMapUpdatedAt.value {
        return Ok(false);
      }
      var fromMap := DesiredPeersFromMap(networkMap);
      FromMapIsOk(fromMap, networkMap.peers);
      var next := CarryForwardActivePolicies(fromMap);
      CarryKeepsOk(fromMap, next, old(desired), old(health), health, now);
      var installed := Install(next, now);
      if !installed {
        return Err(DeviceError);
      }
      directories := DirectoryServers(networkMap.peers);
      desired := next;
      lastAppliedMapUpdatedAt := Some(networkMap.updatedAt);
      return Ok(true);
    }

    /** Makes the device have just these peers, writing only what it does not have yet. */
    method Install(next: Desired, now: nat) returns (ok: bool)
      requires DesiredOk(next) && HealthOk(health, now) && AppliedOk(applied, client.peers)
      modifies this`health, this`applied, client
      ensures HealthOk(health, now) && AppliedOk(applied, client.peers)
      ensures ok <==> client.refusals == old(client.refusals)
      ensures old(client.refusals) <= client.refusals
      ensures ok ==> && client.peers.Keys == next.Keys && AllAgree(next.Keys, next, health, client.peers)
                     && AllApplied(next.Keys, next, applied)
      ensures ok && next.Keys == old(client.peers).Keys && AllApplied(next.Keys, next, old(applied)) ==>
                client.writes == old(client.writes)
    {
      var actual := client.ListPeers();
      if actual.None? {
        return false;
      }
      ok := RemoveVanishedPeers(actual.value, next, now);
      if ok {
        ok := ApplyDesiredPeers(actual.value, next, now);
      }
    }

    /** Keeps each tracked peer on the route it was on, if the new policies still have it. */
    method CarryForwardActivePolicies(before: Desired) returns (after: Desired)
      modifies this`health
      ensures CarriedOver(before, after, desired, old(health), health)
    {
      after := before;
      var keys := before.Keys;
      while keys != {}
        invariant keys <= before.Keys == after.Keys && health.Keys == old(health).Keys
        invariant forall k :: k in after ==>
                    after[k] == if k in keys then before[k] else AfterCarry(k, before, desired, old(health))
        invariant forall k :: k in health ==>
                    health[k] == if k in keys then old(health)[k] else HealthAfterCarry(k, before, desired, old(health))
        decreases |keys|
      {
        var key :| key in keys;
        keys := keys - {key};
        if key !in health {
          continue;
        }
        var h, former, peer := health[key], Lookup(desired, key), before[key];
        var active := CarriedIndex(peer.policies, OldActiveRoute(h, former));
        after := after[key := peer.SetActivePolicy(active)];
        health := health[key := Synced(h, active, RouteKeys(peer.policies))];
      }
    }

    /** Removes what is on the device but no longer desired. */
    method RemoveVanishedPeers(actual: set<PublicKey>, next: Desired, now: nat) returns (ok: bool)
      requires actual == client.peers.Keys && HealthOk(health, now) && AppliedOk(applied, client.peers)
      modifies this`health, this`applied, client
      ensures HealthOk(health, now) && AppliedOk(applied, client.peers)
      ensures ok ==> client.peers.Keys <= next.Keys
      ensures forall k :: k in next ==> Lookup(client.peers, k) == Lookup(old(client.peers), k)
      ensures forall k :: k in next ==> Lookup(health, k) == Lookup(old(health), k)
      ensures ok <==> client.refusals == old(client.refusals)
      ensures old(client.refusals) <= client.refusals && client.reports == old(client.reports)
      ensures actual <= next.Keys ==> client.writes == old(client.writes) && applied == old(applied)
    {
      var keys := actual;
      while keys != {}
        invariant keys <= actual
        invariant HealthOk(health, now) && AppliedOk(applied, client.peers)
        invariant client.peers.Keys <= actual && forall k :: k in client.peers ==> k in keys || k in next
        invariant client.refusals == old(client.refusals) && client.reports == old(client.reports)
        invariant actual <= next.Keys ==> client.writes == old(client.writes) && applied == old(applied)
        invariant forall k :: k in next ==> Lookup(client.peers, k) == Lookup(old(client.peers), k)
        invariant forall k :: k in next ==> Lookup(health, k) == Lookup(old(health), k)
        decreases |keys|
      {
        var key :| key in keys;
        if key !in next {
          var removed := RemovePeer(key, now);
          if !removed {
            return false;
          }
        }
        keys := keys - {key};
      }
      return true;
    }

    /** Removes a peer from the device, and all that is kept about it. */
    method RemovePeer(key: PublicKey, now: nat) returns (ok: bool)
      requires HealthOk(health, now) && AppliedOk(applied, client.peers)
      modifies this`health, this`applied, client
      ensures HealthOk(health, now) && AppliedOk(applied, client.peers)
      ensures client.peers == if ok then old(client.peers) - {key} else old(client.peers)
      ensures health == if ok then old(health) - {key} else old(health)
      ensures ok <==> client.refusals == old(client.refusals)
      ensures old(client.refusals) <= client.refusals && client.reports == old(client.reports)
    {
      ok := client.RemovePeer(key);
      if ok {
        health := health - {key};
        applied := applied - {key};
      }
    }

    /** Adds or updates every desired peer, skipping those already configured as desired. */
    method ApplyDesiredPeers(actual: set<PublicKey>, next: Desired, now: nat) returns (ok: bool)
      requires client.peers.Keys <= next.Keys && forall k :: k in next ==> (k in actual <==> k in client.peers)
      requires DesiredOk(next) && HealthOk(health, now) && AppliedOk(applied, client.peers)
      modifies this`health, this`applied, client
      ensures HealthOk(health, now) && AppliedOk(applied, client.peers)
      ensures ok ==> client.peers.Keys == next.Keys && AllAgree(next.Keys, next, health, client.peers)
      ensures ok ==> AllApplied(next.Keys, next, applied)
      ensures next.Keys <= actual && AllApplied(next.Keys, next, old(applied)) ==> client.writes == old(client.writes)
      ensures ok <==> client.refusals == old(client.refusals)
      ensures old(client.refusals) <= client.refusals && client.reports == old(client.reports)
    {
      var keys := next.Keys;
      ghost var done := {};
      while keys != {}
        invariant keys <= next.Keys && next.Keys <= keys + done && done <= next.Keys
        invariant HealthOk(health, now) && AppliedOk(applied, client.peers)
        invariant client.peers.Keys <= next.Keys
        invariant forall k :: k in keys && k !in done ==> (k in client.peers <==> k in actual)
        invariant keys !! done && client.refusals == old(client.refusals) && client.reports == old(client.reports)
        invariant AllAgree(done, next, health, client.peers) && AllApplied(done, next, applied)
        invariant next.Keys <= actual && AllApplied(next.Keys, next, old(applied)) ==>
                    client.writes == old(client.writes) && applied == old(applied)
        decreases |keys|
      {
        var key :| key in keys;
        ghost var h, p, a := health, client.peers, applied;
        var applies := ApplyPeer(key in actual, key, next, now);
        if !applies {
          return false;
        }
        OneMoreAgrees(done, key, next, h, p, health, client.peers);
        OneMoreApplied(done, key, next, a, applied);
        keys := keys - {key};
        done := done + {key};
      }
      assert done == next.Keys;
      AgreeingPeersAreInstalled(next, health, client.peers);
      return true;
    }

    /** Installs one desired peer and tracks it. */
    method ApplyPeer(installed: bool, key: PublicKey, next: Desired, now: nat) returns (ok: bool)
      requires key in next && DesiredOk(next) && HealthOk(health, now) && AppliedOk(applied, client.peers)
      requires installed == (key in client.peers)
      modifies this`health, this`applied, client
      ensures HealthOk(health, now) && AppliedOk(applied, client.peers)
      ensures SameBut(key, old(health), health) && SameBut(key, old(client.peers), client.peers)
      ensures client.peers.Keys == if ok then old(client.peers).Keys + {key} else old(client.peers).Keys
      ensures ok ==> Agree(key, next, health, client.peers) && AsDesired(key, next, applied)
      ensures SameBut(key, old(applied), applied)
      ensures installed && AsDesired(key, next, old(applied)) ==>
                client.writes == old(client.writes) && applied == old(applied)
      ensures ok <==> client.refusals == old(client.refusals)
      ensures old(client.refusals) <= client.refusals && client.reports == old(client.reports)
    {
      var peer := next[key];
      assert OkFor(key, peer);
      ok := WriteConfig(installed, peer.Config());
      if ok {
        TrackActivePolicy(key, peer, now);
      }
    }

    /** Writes one configuration unless it is the one last applied. */
    method WriteConfig(installed: bool, config: PeerConfig) returns (ok: bool)
      requires AppliedOk(applied, client.peers) && installed == (config.publicKey in client.peers)
      modifies this`applied, client
      ensures AppliedOk(applied, client.peers)
      ensures client.peers == if ok then old(client.peers)[config.publicKey := config] else old(client.peers)
      ensures ok ==> Lookup(applied, config.publicKey) == Some(config)
      ensures SameBut(config.publicKey, old(applied), applied)
      ensures installed && Lookup(old(applied), config.publicKey) == Some(config) ==>
                ok && client.writes == old(client.writes) && applied == old(applied)
      ensures ok <==> client.refusals == old(client.refusals)
      ensures old(client.refusals) <= client.refusals && client.reports == old(client.reports)
    {
      var key := config.publicKey;
      if installed {
        if Lookup(applied, key) != Some(config) {
          ok := client.UpdatePeer(config);
          if !ok {
            return;
          }
          applied := applied[key := config];
        } else {
          ok := true;
        }
      } else {
        ok := client.AddPeer(config);
        if !ok {
          return;
        }
        applied := applied[key := config];
      }
    }

    /** A tracker for the peer, aligned with its policies. */
    method TrackActivePolicy(key: PublicKey, peer: DesiredPeer, now: nat)
      requires HealthOk(health, now) && peer.Ok()
      modifies this`health
      ensures HealthOk(health, now) && health.Keys == old(health).Keys + {key}
      ensures forall k :: k in old(health) && k != key ==> health[k] == old(health)[k]
      ensures key in old(health) ==>
                health[key] == Synced(old(health)[key], peer.activePolicy, RouteKeys(peer.policies))
      ensures health[key].activePolicy == peer.activePolicy
      ensures Keys(health[key].policyHealth) == RouteKeys(peer.policies)
      ensures TrackedFrom(Lookup(old(health), key), peer, now, health[key])
    {
      var routes, active := RouteKeys(peer.policies), peer.ActivePolicyIndex();
      var h: Tracker;
      var draw: nat :| draw >= 0;
      if key in health {
        h := health[key];
        assert h.Inv(now);
      } else {
        h := NewTracker(active, now, JitterFrom(draw));
      }
      SyncedAgrees(h, active, peer.policies);
      health := health[key := Synced(h, active, routes)];
      assert key !in old(health) ==> IsNew(peer, now, draw, health[key]);
    }

    /**
     Samples every peer with a choice of routes and acts on what its health decides; nothing but a refused command ends
     the pass early. A peer whose three views agreed before still has them agree, whether the pass succeeds, is refused
     a sample or fails to write a switch.
     */
    method ReconcilePeerHealthAt(now: nat) returns (ok: bool)
      requires Valid(now)
      modifies this`desired, this`health, this`applied, client
      ensures Valid(now) && desired.Keys == old(desired).Keys
      ensures KeepAgreeing(old(desired), old(health), old(client.peers), desired, health, client.peers)
      ensures AllPassed(old(desired).Keys, old(desired), old(health), now, desired, health)
      ensures old(client.reports) <= client.reports && (ok <==> client.refusals == old(client.refusals))
      ensures ok ==> AllServed(old(desired).Keys, old(desired), old(health), old(client.peers), client.reports[|old(client.reports)|..],
                               now, desired, health, client.peers)
    {
      var keys := desired.Keys;
      ghost var d0, h0, p0, n := desired, health, client.peers, |client.reports|;
      Begun(d0, h0, p0, now);
      while keys != {}
        invariant keys <= desired.Keys && Valid(now)
        invariant old(client.reports) <= client.reports && client.refusals == old(client.refusals)
        invariant SoFar(keys, d0, h0, p0, now, desired, health, client.peers, client.reports[n..])
        decreases |keys|
      {
        var key :| key in keys;
        ghost var d, h, p, reports := desired, health, client.peers, client.reports[n..];
        var served := ServePeer(key, now);
        if !served {
          OneMoreIsInOrder(keys, key, d0, h0, p0, now, d, h, p, reports, desired, health, client.peers);
          return false;
        }
        OneMoreDone(keys, key, d0, h0, p0, now, d, h, p, reports, desired, health, client.peers, client.reports[n..]);
        keys := keys - {key};
      }
      return true;
    }

    /** Samples one peer if it has a choice of routes. */
    method ServePeer(key: PublicKey, now: nat) returns (ok: bool)
      requires Valid(now) && key in desired
      modifies this`desired, this`health, this`applied, client
      ensures Valid(now) && desired.Keys == old(desired).Keys
      ensures SameBut(key, old(desired), desired) && SameBut(key, old(health), health)
      ensures SameBut(key, old(client.peers), client.peers)
      ensures Agree(key, old(desired), old(health), old(client.peers)) ==> Agree(key, desired, health, client.peers)
      ensures PassedFor(key, old(desired), old(health), now, desired, health)
      ensures old(client.reports) <= client.reports && (ok <==> client.refusals == old(client.refusals))
      ensures ok ==> Served(key, old(desired), old(health), old(client.peers), client.reports[|old(client.reports)|..], now,
                            desired, health, client.peers)
    {
      if |desired[key].policies| <= 1 {
        assert key in health ==> Passed(desired[key], health[key], None, now, desired[key], health[key]);
        return true;
      }
      var outcome := CheckPeer(key, now);
      if outcome.Some? {
        ghost var report := client.reports[|old(client.reports)|];
        assert report in client.reports[|old(client.reports)|..];
        assert ServedBy(key, old(desired), old(health), old(client.peers), report, now, desired, health, client.peers,
                        outcome.value);
      }
      return outcome.Some?;
    }

    /** Samples one peer; `None` if the device refused the sample or the switch. */
    method CheckPeer(key: PublicKey, now: nat) returns (outcome: Option<HealthDecision>)
      requires Valid(now) && key in desired && |desired[key].policies| > 1
      modifies this`desired, this`health, this`applied, client
      ensures Valid(now) && desired.Keys == old(desired).Keys
      ensures SameBut(key, old(desired), desired) && SameBut(key, old(health), health)
      ensures SameBut(key, old(client.peers), client.peers)
      ensures Agree(key, old(desired), old(health), old(client.peers)) ==> Agree(key, desired, health, client.peers)
      ensures client.peers == if outcome.Some? && outcome.value.Switch? then old(client.peers)[key := desired[key].Config()]
                              else old(client.peers)
      ensures key in old(health) ==>
                key in health && Passed(old(desired)[key], old(health)[key], outcome, now, desired[key], health[key])
      ensures outcome.Some? ==>
                && client.refusals == old(client.refusals) && |client.reports| == |old(client.reports)| + 1
                && old(client.reports) < client.reports && client.reports[|old(client.reports)|].key == key && key in health
                && SampledFrom(old(desired)[key], Lookup(old(health), key), client.reports[|old(client.reports)|].stats, now,
                               desired[key], health[key], outcome.value)
      ensures outcome.None? ==> client.refusals > old(client.refusals) && old(client.reports) <= client.reports
    {
      var stats := client.GetPeer(key);
      if stats.None? {
        return None;
      }
      outcome := JudgePeer(key, stats.value, now);
    }

    /** Folds a sample in and acts on the decision; `None` if the device refused the switch. */
    method JudgePeer(key: PublicKey, stats: PeerStats, now: nat) returns (outcome: Option<HealthDecision>)
      requires Valid(now) && key in desired && |desired[key].policies| > 1
      modifies this`desired, this`health, this`applied, client
      ensures Valid(now) && desired.Keys == old(desired).Keys
      ensures SameBut(key, old(desired), desired) && SameBut(key, old(health), health)
      ensures Agree(key, old(desired), old(health), old(client.peers)) ==> Agree(key, desired, health, client.peers)
      ensures client.peers == if outcome.Some? && outcome.value.Switch? then old(client.peers)[key := desired[key].Config()]
                              else old(client.peers)
      ensures key in health && (outcome.None? ==>
                key in old(health) ==> Passed(old(desired)[key], old(health)[key], None, now, desired[key], health[key]))
      ensures outcome.Some? ==>
                SampledFrom(old(desired)[key], Lookup(old(health), key), stats, now, desired[key], health[key], outcome.value)
      ensures client.reports == old(client.reports) && client.refusals >= old(client.refusals)
      ensures outcome.Some? <==> client.refusals == old(client.refusals)
    {
      var peer := desired[key];
      assert OkFor(key, peer);
      TrackActivePolicy(key, peer, now);
      var previous := health[key];
      var decision := Fold(key, stats, now);
      var done := ActOn(key, previous, decision, now);
      if done {
        SampledAfter(peer, Lookup(old(health), key), previous, stats, now, desired[key], health[key], decision);
      }
      outcome := if done then Some(decision) else None;
    }

    /** Folds a sample into a tracker that is aligned. */
    method Fold(key: PublicKey, stats: PeerStats, now: nat) returns (decision: HealthDecision)
      requires Valid(now) && key in desired && desired[key].Ok() && key in health && InStep(desired[key], health[key])
      modifies this`health
      ensures Valid(now) && key in health && health == old(health)[key := health[key]]
      ensures old(health)[key].Inv(now)
      ensures (health[key], decision) == Observed(old(health)[key], stats, RouteKeys(desired[key].policies), now)
      ensures InStep(Chosen(desired[key], decision), health[key])
      ensures decision.Switch? ==> decision.nextPolicy < |desired[key].policies|
    {
      assert health[key].Inv(now);
      ObservedInStep(desired[key], health[key], stats, now);
      var observed := Observed(health[key], stats, RouteKeys(desired[key].policies), now);
      decision := observed.1;
      health := health[key := observed.0];
    }

    /** Installs a switch that was decided, or takes the decision back. */
    method ActOn(key: PublicKey, previous: Tracker, decision: HealthDecision, now: nat) returns (ok: bool)
      requires Valid(now) && previous.Inv(now) && key in desired && key in health
      requires decision.Switch? ==> decision.nextPolicy < |desired[key].policies|
      modifies this`desired, this`health, this`applied, client
      ensures Valid(now)
      ensures !decision.Switch? ==> ok && desired == old(desired) && client.peers == old(client.peers)
      ensures !ok ==> desired == old(desired) && client.peers == old(client.peers)
      ensures ok && decision.Switch? ==>
                && desired == old(desired)[key := old(desired)[key].SetActivePolicy(decision.nextPolicy)]
                && client.peers == old(client.peers)[key := desired[key].Config()]
      ensures health == if ok then old(health) else old(health)[key := previous]
      ensures ok <==> client.refusals == old(client.refusals)
      ensures old(client.refusals) <= client.refusals && client.reports == old(client.reports)
    {
      ok := true;
      if decision.Switch? {
        var peer := desired[key];
        assert OkFor(key, peer);
        ok := ApplyActivePolicy(key, decision.nextPolicy);
        if !ok {
          health := health[key := previous];
          desired := desired[key := desired[key].SetActivePolicy(peer.ActivePolicyIndex())];
          assert desired[key] == peer;
          assert desired == old(desired);
        }
      }
    }

    /** Selects a policy and installs it. */
    method ApplyActivePolicy(key: PublicKey, index: nat) returns (ok: bool)
      requires key in desired && desired[key].publicKey == key && AppliedOk(applied, client.peers)
      modifies this`desired, this`applied, client
      ensures desired == old(desired)[key := old(desired)[key].SetActivePolicy(index)]
      ensures ok ==> Lookup(applied, key) == Some(desired[key].Config())
      ensures AppliedOk(applied, client.peers)
      ensures client.peers == if ok then old(client.peers)[key := desired[key].Config()] else old(client.peers)
      ensures ok <==> client.refusals == old(client.refusals)
      ensures old(client.refusals) <= client.refusals && client.reports == old(client.reports)
    {
      desired := desired[key := desired[key].SetActivePolicy(index)];
      var config := desired[key].Config();
      ok := client.UpdatePeer(config);
      if ok {
        applied := applied[key := config];
      }
    }
  }

  function DirectoryServers(peers: seq<MapPeer>): (r: seq<MapPeer>)
    ensures forall p :: p in r <==> p in peers && p.isDirectory
  {
    if peers == [] then []
    else (if peers[0].isDirectory then [peers[0]] else []) + DirectoryServers(peers[1..])
  }
}
