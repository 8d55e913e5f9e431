/** The peers a network map asks for, and how each is rendered into a device configuration. */
module DesiredPeers {
  import opened Wrappers
  import opened Wire
  import opened AllowedIps
  import opened PeerConfigs
  import opened RouteHealth
  import opened PeerHealthMachine
  import opened RoutePolicies

  /** The first direct endpoint advertised. */
  function PreferredDirectEndpoint(policies: seq<RoutePolicy>): (r: Option<SocketAddr>)
    ensures r.Some? ==> exists i :: 0 <= i < |policies| && Offers(policies[i], r) && NoneOffers(policies, i)
    ensures r.None? ==> NoneOffers(policies, |policies|)
  {
    if policies == [] then None
    else if policies[0].DirectPolicy? && policies[0].endpoint.Some? then
      policies[0].endpoint
    else
      var r := PreferredDirectEndpoint(policies[1..]);
      OffersLater(policies, r);
      r
  }

  predicate Offers(p: RoutePolicy, endpoint: Option<SocketAddr>)
  {
    p.DirectPolicy? && p.endpoint == endpoint && endpoint.Some?
  }

  /** None of the first `n` is direct and knows where to. */
  ghost predicate NoneOffers(policies: seq<RoutePolicy>, n: nat)
    requires n <= |policies|
  {
    forall i :: 0 <= i < n ==> !(policies[i].DirectPolicy? && policies[i].endpoint.Some?)
  }

  lemma OffersLater(policies: seq<RoutePolicy>, r: Option<SocketAddr>)
    requires policies != [] && NoneOffers(policies, 1)
    requires r.Some? ==> exists i :: 0 <= i < |policies| - 1 && Offers(policies[1..][i], r) && NoneOffers(policies[1..], i)
    requires r.None? ==> NoneOffers(policies[1..], |policies| - 1)
    ensures r.Some? ==> exists i :: 0 <= i < |policies| && Offers(policies[i], r) && NoneOffers(policies, i)
    ensures r.None? ==> NoneOffers(policies, |policies|)
  {
    if r.Some? {
      var i :| 0 <= i < |policies| - 1 && Offers(policies[1..][i], r) && NoneOffers(policies[1..], i);
      assert forall j :: 0 < j < i + 1 ==> policies[j] == policies[1..][j - 1];
      assert Offers(policies[i + 1], r) && NoneOffers(policies, i + 1);
    } else {
      assert forall j :: 0 < j < |policies| ==> policies[j] == policies[1..][j - 1];
    }
  }

  /** The endpoint is that of a direct policy, and no direct policy with an endpoint has a better priority. */
  ghost predicate BestEndpoint(policies: seq<RoutePolicy>, endpoint: Option<SocketAddr>)
  {
    if endpoint.None? then NoneOffers(policies, |policies|)
    else exists i :: 0 <= i < |policies| && Offers(policies[i], endpoint) &&
           forall j :: 0 <= j < |policies| && policies[j].DirectPolicy? && policies[j].endpoint.Some? ==>
             policies[i].priority <= policies[j].priority
  }

  lemma {:induction false} PreferredIsBest(policies: seq<RoutePolicy>)
    requires SortedByPriority(policies)
    ensures BestEndpoint(policies, PreferredDirectEndpoint(policies))
  {
  }

  function HostPrefix(ip: IpAddr): IpNet
  {
    Network(ip, Width(ip.family))
  }

  datatype DesiredPeer = DesiredPeer(publicKey: PublicKey, allowedIps: seq<IpAddr>, keepalive: Option<nat>,
                                     policies: seq<RoutePolicy>, activeRoute: Option<RouteKey>, activePolicy: nat)
  {
    function ActivePolicyIndex(): nat
    {
      var last := if |policies| == 0 then 0 else |policies| - 1;
      if activePolicy < last then activePolicy else last
    }

    function SetActivePolicy(index: nat): DesiredPeer
    {
      var last := if |policies| == 0 then 0 else |policies| - 1;
      var active := if index < last then index else last;
      this.(activePolicy := active,
            activeRoute := if active < |policies| then Some(policies[active].Key()) else None)
    }

    function Config(): PeerConfig
    {
      var policy := ActivePolicyIndex();
      var (endpoint, relay) :=
        if policy >= |policies| then (None, None)
        else match policies[policy]
             case DirectPolicy(endpoint, _) => (endpoint, None)
             case RelayPolicy(relay, _) => (PreferredDirectEndpoint(policies), Some(relay));
      PeerConfig(publicKey, endpoint, seq(|allowedIps|, i requires 0 <= i < |allowedIps| => HostPrefix(allowedIps[i])),
                 keepalive, relay)
    }

    /** Normalized policies, and the cached route is the one of the active policy. */
    ghost predicate Ok()
    {
      && DistinctRoutes(policies) && SortedByPriority(policies)
      && activePolicy < |policies| && activeRoute == Some(policies[activePolicy].Key())
    }
  }

  /** An index past the last policy selects the last, and the cached route follows. */
  lemma SelectionIsClamped(d: DesiredPeer, index: nat)
    requires d.Ok()
    ensures var s := d.SetActivePolicy(index);
            && s.Ok() && s.policies == d.policies && s.Config().publicKey == d.publicKey == s.publicKey
            && s.ActivePolicyIndex() == s.activePolicy == if index < |d.policies| then index else |d.policies| - 1
  {
  }

  /**
   The rendered configuration sends where the active policy says; with a relay it keeps the best direct endpoint as a
   hint. It keeps the peer's keepalive and accepts exactly the peer's own addresses.
   */
  lemma ConfigFollowsActivePolicy(d: DesiredPeer)
    requires d.Ok()
    ensures match d.policies[d.activePolicy]
            case DirectPolicy(endpoint, _) => d.Config().endpoint == endpoint && d.Config().relay == None
            case RelayPolicy(relay, _) => d.Config().relay == Some(relay) && BestEndpoint(d.policies, d.Config().endpoint)
    ensures d.Config().publicKey == d.publicKey && d.Config().keepalive == d.keepalive
    ensures |d.Config().allowedIps| == |d.allowedIps|
    ensures forall i :: 0 <= i < |d.allowedIps| ==>
              forall a: IpAddr :: RouteOf(d.Config().allowedIps[i]).Contains(a) <==> a == d.allowedIps[i]
  {
    PreferredIsBest(d.policies);
  }

  /** What the peers of a map, in order, come to; a key's last peer wins. */
  ghost predicate FromMap(desired: map<PublicKey, DesiredPeer>, all: seq<MapPeer>, peers: seq<MapPeer>)
  {
    && (forall k :: k in desired <==> exists p :: p in peers && p.publicKey == k)
    && forall k :: k in desired ==> RendersLast(desired[k], k, all, peers)
  }

  /** It renders the last peer with its key. */
  ghost predicate RendersLast(d: DesiredPeer, k: PublicKey, all: seq<MapPeer>, peers: seq<MapPeer>)
  {
    exists i :: LastWith(peers, k, i) && Renders(d, peers[i], all)
  }

  ghost predicate LastWith(peers: seq<MapPeer>, k: PublicKey, i: int)
  {
    0 <= i < |peers| && peers[i].publicKey == k && forall j :: i < j < |peers| ==> peers[j].publicKey != k
  }

  ghost predicate Renders(d: DesiredPeer, p: MapPeer, all: seq<MapPeer>)
  {
    && d.publicKey == p.publicKey
    && d.allowedIps == (if p.tunnelIp.Some? then [p.tunnelIp.value] else [])
    && d.keepalive == (if p.isDirectory then Some(25) else None)
    && NormalForm(d.policies, Policies(all, p))
    && d.Ok() && IsBestPriority(d.policies, d.policies[d.activePolicy].priority)
  }

  lemma OneMore(desired: map<PublicKey, DesiredPeer>, all: seq<MapPeer>, peers: seq<MapPeer>, p: MapPeer, d: DesiredPeer)
    requires FromMap(desired, all, peers) && Renders(d, p, all)
    ensures FromMap(desired[p.publicKey := d], all, peers + [p])
  {
    var after := desired[p.publicKey := d];
    assert p in peers + [p];
    assert LastWith(peers + [p], p.publicKey, |peers|);
    forall k | k in after
      ensures exists q :: q in peers + [p] && q.publicKey == k
      ensures RendersLast(after[k], k, all, peers + [p])
    {
      if k != p.publicKey {
        var i :| LastWith(peers, k, i) && Renders(desired[k], peers[i], all);
        StillLast(peers, p, k, i);
        assert peers[i] in peers + [p];
      }
    }
  }

  lemma StillLast(peers: seq<MapPeer>, p: MapPeer, k: PublicKey, i: int)
    requires LastWith(peers, k, i) && p.publicKey != k
    ensures LastWith(peers + [p], k, i) && (peers + [p])[i] == peers[i]
  {
  }

  /** Every peer of the map with its policies normalized and a policy of the best priority active. */
  method DesiredPeersFromMap(networkMap: NetworkMap) returns (desired: map<PublicKey, DesiredPeer>)
    ensures FromMap(desired, networkMap.peers, networkMap.peers)
  {
    desired := map[];
    for n := 0 to |networkMap.peers|
      invariant FromMap(desired, networkMap.peers, networkMap.peers[..n])
    {
      var peer := networkMap.peers[n];
      var allowedIps: seq<IpAddr> := [];
      if peer.tunnelIp.Some? {
        allowedIps := allowedIps + [peer.tunnelIp.value];
      }
      var policies := RoutePoliciesForPeer(networkMap, peer);
      var draw: nat := *;
      var active := InitialPolicyIndex(policies, draw);
      var d := DesiredPeer(peer.publicKey, allowedIps, if peer.isDirectory then Some(25) else None, policies,
                           Some(policies[active].Key()), active);
      OneMore(desired, networkMap.peers, networkMap.peers[..n], peer, d);
      assert networkMap.peers[..n + 1] == networkMap.peers[..n] + [peer];
      desired := desired[peer.publicKey := d];
    }
    assert networkMap.peers[..|networkMap.peers|] == networkMap.peers;
  }

  // -------------------------------------------------------------------------
  // Carrying a selection over to a new map
  // -------------------------------------------------------------------------

  /** The position of the policy for a route. */
  function PositionOf(policies: seq<RoutePolicy>, route: RouteKey): (r: Option<nat>)
    ensures r.Some? ==> r.value < |policies| && policies[r.value].Key() == route
    ensures r.None? ==> forall i :: 0 <= i < |policies| ==> policies[i].Key() != route
  {
    if policies == [] then None
    else if policies[0].Key() == route then Some(0)
    else
      var rest := PositionOf(policies[1..], route);
      if rest.None? then None else Some(rest.value + 1)
  }

  function ActiveRouteOf(h: Tracker): Option<RouteKey>
  {
    if h.activePolicy < |h.policyHealth| then Some(h.policyHealth[h.activePolicy].route) else None
  }

  /** The route a peer was last on, the most authoritative source first. */
  function OldActiveRoute(h: Tracker, former: Option<DesiredPeer>): Option<RouteKey>
  {
    if ActiveRouteOf(h).Some? then ActiveRouteOf(h)
    else if former.None? then None
    else if former.value.activeRoute.Some? then former.value.activeRoute
    else if h.activePolicy < |former.value.policies| then Some(former.value.policies[h.activePolicy].Key())
    else None
  }

  function CarriedIndex(policies: seq<RoutePolicy>, route: Option<RouteKey>): nat
  {
    if route.None? || PositionOf(policies, route.value).None? then 0 else PositionOf(policies, route.value).value
  }

  function CarriedPeer(d: DesiredPeer, h: Tracker, former: Option<DesiredPeer>): DesiredPeer
  {
    d.SetActivePolicy(CarriedIndex(d.policies, OldActiveRoute(h, former)))
  }

  function CarriedHealth(d: DesiredPeer, h: Tracker, former: Option<DesiredPeer>): Tracker
  {
    Synced(h, CarriedIndex(d.policies, OldActiveRoute(h, former)), RouteKeys(d.policies))
  }

  /**
   A new map keeps the active route of a peer whose new policies still have it, wherever they have it, and the
   health of every route that survives; only without it does the peer fall back to the most preferred policy.
   */
  lemma CarryKeepsRouteAndHealth(d: DesiredPeer, h: Tracker, former: Option<DesiredPeer>, i: nat, j: nat)
    requires d.Ok() && h.activePolicy < |h.policyHealth| && NoDuplicates(Keys(h.policyHealth))
    ensures var c, g := CarriedPeer(d, h, former), CarriedHealth(d, h, former);
            var route := h.policyHealth[h.activePolicy].route;
            && c.Ok() && g.activePolicy == c.activePolicy && Keys(g.policyHealth) == RouteKeys(c.policies)
            && (if route in RouteKeys(d.policies) then c.activeRoute == Some(route) else c.activePolicy == 0)
            && (i < |h.policyHealth| && j < |d.policies| && d.policies[j].Key() == h.policyHealth[i].route ==>
                  g.policyHealth[j] == h.policyHealth[i])
  {
    KeysMeanPolicies(d.policies, h.policyHealth[h.activePolicy].route);
    SyncedAgrees(h, CarriedIndex(d.policies, OldActiveRoute(h, former)), d.policies);
    if i < |h.policyHealth| && j < |d.policies| && d.policies[j].Key() == h.policyHealth[i].route {
      SurvivorsKeepHealth(h.policyHealth, RouteKeys(d.policies), i, j);
    }
  }

  /** A tracker that knows no route yet leaves the peer on the route it was on in the former map, if it was in one. */
  lemma CarryKeepsFormerRoute(d: DesiredPeer, h: Tracker, former: Option<DesiredPeer>)
    requires d.Ok() && h.policyHealth == [] && (former.Some? ==> former.value.Ok())
    ensures var c := CarriedPeer(d, h, former);
            && c.Ok()
            && if former.Some? && former.value.activeRoute.value in RouteKeys(d.policies)
               then c.activeRoute == former.value.activeRoute else c.activePolicy == 0
  {
    if former.Some? {
      KeysMeanPolicies(d.policies, former.value.activeRoute.value);
    }
  }

  /** Syncing aligns a tracker with the policies it is synced to. */
  lemma SyncedAgrees(h: Tracker, active: nat, policies: seq<RoutePolicy>)
    requires active < |policies|
    ensures var g := Synced(h, active, RouteKeys(policies));
            g.activePolicy == active && Keys(g.policyHealth) == RouteKeys(policies)
  {
  }
}
