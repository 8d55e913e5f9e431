/** Route policies: the expansion of a peer's routes into a normalized preference list. */
module RoutePolicies {
  import opened Wrappers
  import opened Wire
  import opened AllowedIps
  import opened PeerHealthMachine

  type Priority = p: nat | p < 0x1_0000

  datatype RoutePolicy =
    | DirectPolicy(endpoint: Option<SocketAddr>, priority: Priority)
    | RelayPolicy(relay: PublicKey, priority: Priority)
  {
    /** What stays the same about a route when its priority changes. */
    function Key(): RouteKey
    {
      match this
      case DirectPolicy(endpoint, _) => RouteKey.Direct(endpoint)
      case RelayPolicy(relay, _) => RouteKey.Relay(relay)
    }

    predicate SameRoute(other: RoutePolicy)
      ensures SameRoute(other) <==> Key() == other.Key()
    {
      match (this, other)
      case (DirectPolicy(a, _), DirectPolicy(b, _)) => a == b
      case (RelayPolicy(a, _), RelayPolicy(b, _)) => a == b
      case (DirectPolicy(_, _), RelayPolicy(_, _)) => false
      case (RelayPolicy(_, _), DirectPolicy(_, _)) => false
    }
  }

  /** Route identities in policy order. */
  function RouteKeys(policies: seq<RoutePolicy>): (r: seq<RouteKey>)
    ensures |r| == |policies|
  {
    seq(|policies|, i requires 0 <= i < |policies| => policies[i].Key())
  }

  // -------------------------------------------------------------------------
  // The normal form
  // -------------------------------------------------------------------------

  ghost predicate DistinctRoutes(policies: seq<RoutePolicy>)
  {
    forall i, j :: 0 <= i < j < |policies| ==> policies[i].Key() != policies[j].Key()
  }

  ghost predicate SortedByPriority(policies: seq<RoutePolicy>)
  {
    forall i, j :: 0 <= i < j < |policies| ==> policies[i].priority <= policies[j].priority
  }

  /** `p` is among the policies, and no duplicate of its route has a lower priority. */
  ghost predicate IsBestOf(p: RoutePolicy, policies: seq<RoutePolicy>)
  {
    p in policies && forall q :: q in policies && q.Key() == p.Key() ==> p.priority <= q.priority
  }

  /** One policy for every route, each with its best priority. */
  ghost predicate BestOfEach(r: seq<RoutePolicy>, policies: seq<RoutePolicy>)
  {
    && DistinctRoutes(r)
    && (forall p :: p in r ==> IsBestOf(p, policies))
    && forall q :: q in policies ==> q.Key() in RouteKeys(r)
  }

  ghost predicate NormalForm(r: seq<RoutePolicy>, policies: seq<RoutePolicy>)
  {
    BestOfEach(r, policies) && SortedByPriority(r)
  }

  lemma KeysMeanPolicies(policies: seq<RoutePolicy>, key: RouteKey)
    ensures key in RouteKeys(policies) <==> exists i :: 0 <= i < |policies| && policies[i].Key() == key
  {
    var keys := RouteKeys(policies);
    if key in keys {
      var i :| 0 <= i < |keys| && keys[i] == key;
      assert policies[i].Key() == key;
    }
    if i :| 0 <= i < |policies| && policies[i].Key() == key {
      assert keys[i] == key;
    }
  }

  lemma DistinctMeansNoDuplicates(policies: seq<RoutePolicy>)
    ensures DistinctRoutes(policies) <==> NoDuplicates(RouteKeys(policies))
  {
    var keys := RouteKeys(policies);
    assert forall i :: 0 <= i < |policies| ==> keys[i] == policies[i].Key();
  }

  /** The position of the first policy for a route. */
  method FindRoute(policies: seq<RoutePolicy>, policy: RoutePolicy) returns (at: Option<nat>)
    ensures at.None? ==> forall i :: 0 <= i < |policies| ==> policies[i].Key() != policy.Key()
    ensures at.Some? ==> at.value < |policies| && policies[at.value].Key() == policy.Key()
  {
    for i := 0 to |policies|
      invariant forall k :: 0 <= k < i ==> policies[k].Key() != policy.Key()
    {
      if policies[i].SameRoute(policy) {
        return Some(i);
      }
    }
    return None;
  }

  lemma BestWithLower(r: seq<RoutePolicy>, before: seq<RoutePolicy>, policy: RoutePolicy, at: nat)
    requires BestOfEach(r, before) && at < |r| && r[at].Key() == policy.Key() && policy.priority < r[at].priority
    ensures BestOfEach(r[at := policy], before + [policy])
  {
    var s, all := r[at := policy], before + [policy];
    assert IsBestOf(r[at], before);
    forall p | p in s
      ensures IsBestOf(p, all)
    {
      var i :| 0 <= i < |s| && s[i] == p;
      if i != at {
        assert p == r[i] && p in r && p.Key() != policy.Key();
        assert IsBestOf(p, before);
      }
    }
    assert RouteKeys(s) == RouteKeys(r);
    forall q | q in all
      ensures q.Key() in RouteKeys(s)
    {
      if q !in before {
        assert RouteKeys(s)[at] == policy.Key();
      }
    }
  }

  lemma BestWithout(r: seq<RoutePolicy>, before: seq<RoutePolicy>, policy: RoutePolicy, at: nat)
    requires BestOfEach(r, before) && at < |r| && r[at].Key() == policy.Key() && policy.priority >= r[at].priority
    ensures BestOfEach(r, before + [policy])
  {
    forall p | p in r
      ensures IsBestOf(p, before + [policy])
    {
      var i :| 0 <= i < |r| && r[i] == p;
    }
    assert RouteKeys(r)[at] == policy.Key();
  }

  lemma BestWithNew(r: seq<RoutePolicy>, before: seq<RoutePolicy>, policy: RoutePolicy)
    requires BestOfEach(r, before) && forall i :: 0 <= i < |r| ==> r[i].Key() != policy.Key()
    ensures BestOfEach(r + [policy], before + [policy])
  {
    var s, all := r + [policy], before + [policy];
    KeysMeanPolicies(r, policy.Key());
    forall p | p in s
      ensures IsBestOf(p, all)
    {
      if p in r {
        var i :| 0 <= i < |r| && r[i] == p;
      }
    }
    assert RouteKeys(s) == RouteKeys(r) + [policy.Key()];
  }

  lemma SamePoliciesSameBest(r: seq<RoutePolicy>, s: seq<RoutePolicy>, policies: seq<RoutePolicy>)
    requires BestOfEach(r, policies) && multiset(r) == multiset(s)
    ensures BestOfEach(s, policies)
  {
    forall p ensures p in r <==> p in s
    {
      assert p in multiset(r) <==> p in multiset(s);
    }
    forall key ensures key in RouteKeys(r) ==> key in RouteKeys(s)
    {
      KeysMeanPolicies(r, key);
      KeysMeanPolicies(s, key);
      if key in RouteKeys(r) {
        var i :| 0 <= i < |r| && r[i].Key() == key;
        assert r[i] in s;
      }
    }
    DistinctIsPermuted(r, s);
  }

  lemma DistinctIsPermuted(r: seq<RoutePolicy>, s: seq<RoutePolicy>)
    requires DistinctRoutes(r) && multiset(r) == multiset(s)
    ensures DistinctRoutes(s)
  {
    forall i, j | 0 <= i < j < |s|
      ensures s[i].Key() != s[j].Key()
    {
      if s[i].Key() == s[j].Key() {
        assert s[i] in multiset(r) && s[j] in multiset(r);
        var k :| 0 <= k < |r| && r[k] == s[i];
        var l :| 0 <= l < |r| && r[l] == s[j];
        Twice(s, i, j);
        OnlyOnce(r, k);
      }
    }
  }

  lemma Twice(s: seq<RoutePolicy>, i: nat, j: nat)
    requires i < j < |s| && s[i] == s[j]
    ensures multiset(s)[s[i]] >= 2
  {
    assert s == s[..j] + s[j..];
    assert s[i] in s[..j] && s[j] in s[j..];
    assert multiset(s) == multiset(s[..j]) + multiset(s[j..]);
  }

  lemma OnlyOnce(r: seq<RoutePolicy>, k: nat)
    requires DistinctRoutes(r) && k < |r|
    ensures multiset(r)[r[k]] == 1
  {
    assert r == r[..k] + [r[k]] + r[k + 1..];
    assert r[k] !in r[..k] && r[k] !in r[k + 1..];
    assert multiset(r) == multiset(r[..k]) + multiset([r[k]]) + multiset(r[k + 1..]);
  }

  /** Any order by priority will do. */
  method SortByPriority(policies: seq<RoutePolicy>) returns (r: seq<RoutePolicy>)
    ensures SortedByPriority(r) && multiset(r) == multiset(policies)
  {
    r := [];
    for n := 0 to |policies|
      invariant SortedByPriority(r) && multiset(r) == multiset(policies[..n])
    {
      assert policies[..n + 1] == policies[..n] + [policies[n]];
      r := InsertByPriority(r, policies[n]);
    }
    assert policies[..|policies|] == policies;
  }

  method InsertByPriority(sorted: seq<RoutePolicy>, policy: RoutePolicy) returns (r: seq<RoutePolicy>)
    requires SortedByPriority(sorted)
    ensures SortedByPriority(r) && multiset(r) == multiset(sorted) + multiset{policy}
  {
    var at: nat := |sorted|;
    while at > 0 && sorted[at - 1].priority > policy.priority
      invariant 0 <= at <= |sorted|
      invariant forall k :: at <= k < |sorted| ==> sorted[k].priority > policy.priority
    {
      at := at - 1;
    }
    InsertedIsSorted(sorted, at, policy);
    InsertedIsMore(sorted, at, policy);
    r := sorted[..at] + [policy] + sorted[at..];
  }

  lemma InsertedIsMore(r: seq<RoutePolicy>, at: nat, policy: RoutePolicy)
    requires at <= |r|
    ensures multiset(r[..at] + [policy] + r[at..]) == multiset(r) + multiset{policy}
  {
    assert r == r[..at] + r[at..];
  }

  lemma InsertedIsSorted(r: seq<RoutePolicy>, at: nat, policy: RoutePolicy)
    requires SortedByPriority(r) && at <= |r|
    requires at > 0 ==> r[at - 1].priority <= policy.priority
    requires forall k :: at <= k < |r| ==> r[k].priority > policy.priority
    ensures SortedByPriority(r[..at] + [policy] + r[at..])
  {
  }

  /** Collapses duplicate routes to their best priority and puts the most preferred first. */
  method DedupeAndSortPolicies(policies: seq<RoutePolicy>) returns (r: seq<RoutePolicy>)
    ensures NormalForm(r, policies)
  {
    var deduped: seq<RoutePolicy> := [];
    for n := 0 to |policies|
      invariant BestOfEach(deduped, policies[..n])
    {
      var policy := policies[n];
      var existing := FindRoute(deduped, policy);
      assert policies[..n + 1] == policies[..n] + [policy];
      if existing.Some? {
        if policy.priority < deduped[existing.value].priority {
          BestWithLower(deduped, policies[..n], policy, existing.value);
          SamePolicy(deduped[existing.value], policy);
          deduped := deduped[existing.value := deduped[existing.value].(priority := policy.priority)];
        } else {
          BestWithout(deduped, policies[..n], policy, existing.value);
        }
      } else {
        BestWithNew(deduped, policies[..n], policy);
        deduped := deduped + [policy];
      }
    }
    assert policies[..|policies|] == policies;
    r := SortByPriority(deduped);
    SamePoliciesSameBest(deduped, r, policies);
  }

  /** Lowering the priority of an existing policy makes it the duplicate. */
  lemma SamePolicy(existing: RoutePolicy, policy: RoutePolicy)
    requires existing.Key() == policy.Key()
    ensures existing.(priority := policy.priority) == policy
  {
  }

  /** Normalizing a normal form again changes nothing but the order of equal priorities. */
  lemma NormalFormIsStable(r: seq<RoutePolicy>, s: seq<RoutePolicy>, policies: seq<RoutePolicy>)
    requires NormalForm(r, policies) && NormalForm(s, r)
    ensures |s| == |r| && forall p :: p in s <==> p in r
  {
    forall p | p in r
      ensures p in s
    {
      KeysMeanPolicies(s, p.Key());
      assert p.Key() in RouteKeys(s);
      var i :| 0 <= i < |s| && s[i].Key() == p.Key();
      var q := s[i];
      assert IsBestOf(q, r);
      var j :| 0 <= j < |r| && r[j] == q;
      var k :| 0 <= k < |r| && r[k] == p;
      assert j == k;
    }
    SameMembersSameLength(r, s);
  }

  function Members(r: seq<RoutePolicy>): set<RoutePolicy>
  {
    set p | p in r
  }

  lemma {:induction false} DistinctCount(r: seq<RoutePolicy>)
    requires DistinctRoutes(r)
    ensures |Members(r)| == |r|
  {
    if r != [] {
      var n := |r| - 1;
      DistinctCount(r[..n]);
      assert r == r[..n] + [r[n]];
      assert Members(r) == Members(r[..n]) + {r[n]};
      assert r[n] !in r[..n];
    }
  }

  lemma SameMembersSameLength(r: seq<RoutePolicy>, s: seq<RoutePolicy>)
    requires DistinctRoutes(r) && DistinctRoutes(s) && forall p :: p in s <==> p in r
    ensures |s| == |r|
  {
    DistinctCount(r);
    DistinctCount(s);
    assert Members(r) == Members(s);
  }

  // -------------------------------------------------------------------------
  // From the network map
  // -------------------------------------------------------------------------

  datatype RouteKind = ToEndpoint(endpoint: Option<SocketAddr>) | ViaRelay(id: int)

  datatype MapRoute = MapRoute(priority: Priority, kind: RouteKind)

  datatype MapPeer = MapPeer(id: int, publicKey: PublicKey, tunnelIp: Option<IpAddr>, isDirectory: bool,
                             routes: seq<MapRoute>)

  datatype NetworkMap = NetworkMap(updatedAt: int, peers: seq<MapPeer>)

  /** The first peer of the map with an id. */
  function FindPeer(peers: seq<MapPeer>, id: int): (r: Option<MapPeer>)
    ensures r.Some? ==> r.value in peers && r.value.id == id
    ensures r.None? <==> forall p :: p in peers ==> p.id != id
  {
    if peers == [] then None
    else if peers[0].id == id then Some(peers[0])
    else FindPeer(peers[1..], id)
  }

  /** The policy a route stands for, unless it names no other peer of the map. */
  function PolicyFor(peers: seq<MapPeer>, destination: PublicKey, route: MapRoute): Option<RoutePolicy>
  {
    match route.kind
    case ToEndpoint(endpoint) => Some(DirectPolicy(endpoint, route.priority))
    case ViaRelay(id) =>
      var relay := FindPeer(peers, id);
      if relay.None? || relay.value.publicKey == destination then None
      else Some(RelayPolicy(relay.value.publicKey, route.priority))
  }

  function Expanded(peers: seq<MapPeer>, destination: PublicKey, routes: seq<MapRoute>): seq<RoutePolicy>
  {
    if routes == [] then []
    else
      var n := |routes| - 1;
      var last := PolicyFor(peers, destination, routes[n]);
      Expanded(peers, destination, routes[..n]) + (if last.Some? then [last.value] else [])
  }

  /** What a peer's routes come to before normalization: a bare direct route if none of them counts. */
  function Policies(peers: seq<MapPeer>, destination: MapPeer): (r: seq<RoutePolicy>)
    ensures r != []
  {
    var expanded := Expanded(peers, destination.publicKey, destination.routes);
    if expanded == [] then [DirectPolicy(None, 0)] else expanded
  }

  ghost predicate IsFirst(peers: seq<MapPeer>, j: nat, id: int)
  {
    j < |peers| && peers[j].id == id && forall k :: 0 <= k < j ==> peers[k].id != id
  }

  /** The first peer of the map with the relay's id, if that is not the destination, has this key. */
  ghost predicate RelayedBy(peers: seq<MapPeer>, destination: PublicKey, id: int, j: nat, key: RouteKey)
  {
    IsFirst(peers, j, id) && peers[j].publicKey != destination && key == RouteKey.Relay(peers[j].publicKey)
  }

  /** A route of the peer stands for this route key: an endpoint for itself, a relay for the peer it names. */
  ghost predicate Advertises(peers: seq<MapPeer>, destination: PublicKey, route: MapRoute, key: RouteKey)
  {
    match route.kind
    case ToEndpoint(endpoint) => key == RouteKey.Direct(endpoint)
    case ViaRelay(id) => exists j: nat :: RelayedBy(peers, destination, id, j, key)
  }

  lemma {:induction false} FirstOf(peers: seq<MapPeer>, id: int) returns (j: nat)
    requires FindPeer(peers, id).Some?
    ensures IsFirst(peers, j, id) && FindPeer(peers, id) == Some(peers[j])
  {
    if peers[0].id == id {
      j := 0;
    } else {
      j := FirstOf(peers[1..], id);
      j := j + 1;
      assert forall k :: 1 <= k < j ==> peers[k] == peers[1..][k - 1];
    }
  }

  lemma PolicyIsAdvertised(peers: seq<MapPeer>, destination: PublicKey, route: MapRoute, key: RouteKey)
    ensures var policy := PolicyFor(peers, destination, route);
            && (policy.Some? ==> policy.value.priority == route.priority)
            && (policy.Some? && policy.value.Key() == key <==> Advertises(peers, destination, route, key))
  {
    if route.kind.ViaRelay? {
      if FindPeer(peers, route.kind.id).Some? {
        var j := FirstOf(peers, route.kind.id);
        if peers[j].publicKey != destination && key == RouteKey.Relay(peers[j].publicKey) {
          assert RelayedBy(peers, destination, route.kind.id, j, key);
        }
      }
      if j: nat :| RelayedBy(peers, destination, route.kind.id, j, key) {
        assert peers[j] in peers;
      }
    }
  }

  /** The `i`-th route of the peer stands for this route key. */
  ghost predicate AdvertisesAt(peers: seq<MapPeer>, destination: MapPeer, i: nat, key: RouteKey)
  {
    i < |destination.routes| && Advertises(peers, destination.publicKey, destination.routes[i], key)
  }

  ghost predicate AdvertisesAny(peers: seq<MapPeer>, destination: MapPeer, key: RouteKey)
  {
    exists i: nat :: AdvertisesAt(peers, destination, i, key)
  }

  ghost predicate StandsFor(peers: seq<MapPeer>, destination: PublicKey, routes: seq<MapRoute>, i: nat, p: RoutePolicy)
  {
    i < |routes| && PolicyFor(peers, destination, routes[i]) == Some(p)
  }

  lemma {:induction false} ExpandedHolds(peers: seq<MapPeer>, destination: PublicKey, routes: seq<MapRoute>,
                                         p: RoutePolicy)
    ensures p in Expanded(peers, destination, routes) <==> exists i: nat :: StandsFor(peers, destination, routes, i, p)
  {
    if routes != [] {
      var n := |routes| - 1;
      ExpandedHolds(peers, destination, routes[..n], p);
      if i: nat :| StandsFor(peers, destination, routes[..n], i, p) {
        assert StandsFor(peers, destination, routes, i, p);
      }
      if i: nat :| StandsFor(peers, destination, routes, i, p) {
        assert i < n ==> StandsFor(peers, destination, routes[..n], i, p);
      }
      assert StandsFor(peers, destination, routes, n, p) <==> PolicyFor(peers, destination, routes[n]) == Some(p);
    }
  }

  lemma ExpandedIsAdvertised(peers: seq<MapPeer>, destination: MapPeer, p: RoutePolicy) returns (i: nat)
    requires p in Expanded(peers, destination.publicKey, destination.routes)
    ensures AdvertisesAt(peers, destination, i, p.Key()) && p.priority == destination.routes[i].priority
  {
    ExpandedHolds(peers, destination.publicKey, destination.routes, p);
    i :| StandsFor(peers, destination.publicKey, destination.routes, i, p);
    PolicyIsAdvertised(peers, destination.publicKey, destination.routes[i], p.Key());
  }

  lemma AdvertisedIsExpanded(peers: seq<MapPeer>, destination: MapPeer, i: nat, key: RouteKey) returns (p: RoutePolicy)
    requires AdvertisesAt(peers, destination, i, key)
    ensures p in Expanded(peers, destination.publicKey, destination.routes)
    ensures p.Key() == key && p.priority == destination.routes[i].priority
  {
    PolicyIsAdvertised(peers, destination.publicKey, destination.routes[i], key);
    p := PolicyFor(peers, destination.publicKey, destination.routes[i]).value;
    assert StandsFor(peers, destination.publicKey, destination.routes, i, p);
    ExpandedHolds(peers, destination.publicKey, destination.routes, p);
  }

  /** A policy for this key, at the best priority it is advertised at. */
  ghost predicate AtItsBest(peers: seq<MapPeer>, destination: MapPeer, p: RoutePolicy)
  {
    && (exists i: nat :: AdvertisesAt(peers, destination, i, p.Key()) && p.priority == destination.routes[i].priority)
    && forall i: nat :: AdvertisesAt(peers, destination, i, p.Key()) ==> p.priority <= destination.routes[i].priority
  }

  /**
   A peer's policies are its advertised routes and nothing else, each at the best priority it is advertised at; if nothing
   is advertised there is one bare direct route.
   */
  lemma PoliciesAreAdvertised(peers: seq<MapPeer>, destination: MapPeer, r: seq<RoutePolicy>, key: RouteKey)
    requires NormalForm(r, Policies(peers, destination))
    ensures AdvertisesAny(peers, destination, key) ==> exists p :: p in r && p.Key() == key
    ensures if exists k: RouteKey :: AdvertisesAny(peers, destination, k)
            then forall p :: p in r ==> AtItsBest(peers, destination, p)
            else r == [DirectPolicy(None, 0)]
  {
    AdvertisedIsPolicy(peers, destination, r, key);
    WhenNothingIsExpanded(peers, destination);
    if Expanded(peers, destination.publicKey, destination.routes) == [] {
      OnlyOne(r, DirectPolicy(None, 0));
    } else {
      forall p | p in r
        ensures AtItsBest(peers, destination, p)
      {
        BestIsAtItsBest(peers, destination, p);
      }
    }
  }

  lemma AdvertisedIsPolicy(peers: seq<MapPeer>, destination: MapPeer, r: seq<RoutePolicy>, key: RouteKey)
    requires NormalForm(r, Policies(peers, destination))
    ensures AdvertisesAny(peers, destination, key) ==> exists p :: p in r && p.Key() == key
  {
    if i: nat :| AdvertisesAt(peers, destination, i, key) {
      var q := AdvertisedIsExpanded(peers, destination, i, key);
      KeysMeanPolicies(r, key);
    }
  }

  lemma WhenNothingIsExpanded(peers: seq<MapPeer>, destination: MapPeer)
    ensures Expanded(peers, destination.publicKey, destination.routes) == [] <==>
            !exists k: RouteKey :: AdvertisesAny(peers, destination, k)
  {
    var expanded := Expanded(peers, destination.publicKey, destination.routes);
    if expanded == [] {
      forall k: RouteKey, i: nat
        ensures !AdvertisesAt(peers, destination, i, k)
      {
        if AdvertisesAt(peers, destination, i, k) {
          var q := AdvertisedIsExpanded(peers, destination, i, k);
        }
      }
    } else {
      var i := ExpandedIsAdvertised(peers, destination, expanded[0]);
      assert AdvertisesAny(peers, destination, expanded[0].Key());
    }
  }

  lemma OnlyOne(r: seq<RoutePolicy>, p: RoutePolicy)
    requires NormalForm(r, [p])
    ensures r == [p]
  {
    KeysMeanPolicies(r, p.Key());
    assert p in [p];
    forall i | 0 <= i < |r|
      ensures r[i] == p
    {
      assert r[i] in r && IsBestOf(r[i], [p]);
    }
    assert |r| > 1 ==> r[0].Key() != r[1].Key();
  }

  lemma {:induction false} BestIsAtItsBest(peers: seq<MapPeer>, destination: MapPeer, p: RoutePolicy)
    requires IsBestOf(p, Expanded(peers, destination.publicKey, destination.routes))
    ensures AtItsBest(peers, destination, p)
  {
    var j := ExpandedIsAdvertised(peers, destination, p);
    forall i: nat | AdvertisesAt(peers, destination, i, p.Key())
      ensures p.priority <= destination.routes[i].priority
    {
      var q := AdvertisedIsExpanded(peers, destination, i, p.Key());
    }
  }

  method RoutePoliciesForPeer(networkMap: NetworkMap, destination: MapPeer) returns (r: seq<RoutePolicy>)
    ensures NormalForm(r, Policies(networkMap.peers, destination)) && r != []
  {
    var policies: seq<RoutePolicy> := [];
    for n := 0 to |destination.routes|
      invariant policies == Expanded(networkMap.peers, destination.publicKey, destination.routes[..n])
    {
      var route := destination.routes[n];
      assert destination.routes[..n + 1][..n] == destination.routes[..n];
      match route.kind {
        case ToEndpoint(endpoint) =>
          policies := policies + [DirectPolicy(endpoint, route.priority)];
        case ViaRelay(id) =>
          var relay := FindPeer(networkMap.peers, id);
          if relay.None? {
            continue;
          }
          if relay.value.publicKey == destination.publicKey {
            continue;
          }
          policies := policies + [RelayPolicy(relay.value.publicKey, route.priority)];
      }
    }
    assert destination.routes[..|destination.routes|] == destination.routes;
    if policies == [] {
      policies := [DirectPolicy(None, 0)];
    }
    r := DedupeAndSortPolicies(policies);
    if r == [] {
      KeysMeanPolicies(r, policies[0].Key());
    }
  }

  // -------------------------------------------------------------------------
  // The initial choice
  // -------------------------------------------------------------------------

  ghost predicate IsBestPriority(policies: seq<RoutePolicy>, priority: int)
  {
    && (exists p :: p in policies && p.priority == priority)
    && forall p :: p in policies ==> priority <= p.priority
  }

  function CountAt(policies: seq<RoutePolicy>, priority: int): (n: nat)
    ensures n <= |policies|
  {
    if policies == [] then 0
    else CountAt(policies[..|policies| - 1], priority) + (if policies[|policies| - 1].priority == priority then 1 else 0)
  }

  lemma {:induction false} CountAtLeast(policies: seq<RoutePolicy>, i: nat)
    requires i < |policies|
    ensures CountAt(policies[..i], policies[i].priority) < CountAt(policies, policies[i].priority)
    decreases |policies|
  {
    var n := |policies| - 1;
    if i < n {
      CountAtLeast(policies[..n], i);
      assert policies[..n][..i] == policies[..i];
    }
  }

  method BestPriority(policies: seq<RoutePolicy>) returns (best: Priority)
    requires policies != []
    ensures IsBestPriority(policies, best)
  {
    best := policies[0].priority;
    for i := 1 to |policies|
      invariant IsBestPriority(policies[..i], best)
    {
      NextBest(policies, i, best);
      if policies[i].priority < best {
        best := policies[i].priority;
      }
    }
    assert policies[..|policies|] == policies;
  }

  lemma {:induction false} OneMoreCounted(policies: seq<RoutePolicy>, i: nat, best: int)
    requires i < |policies|
    ensures CountAt(policies[..i + 1], best) == CountAt(policies[..i], best) + if policies[i].priority == best then 1 else 0
  {
    assert policies[..i + 1][..i] == policies[..i];
  }

  /** The `draw`-th, counted round and round, of the policies with the best priority. */
  method InitialPolicyIndex(policies: seq<RoutePolicy>, draw: nat) returns (index: nat)
    requires policies != []
    ensures index < |policies| && IsBestPriority(policies, policies[index].priority)
    ensures var candidates := CountAt(policies, policies[index].priority);
            candidates > 0 && CountAt(policies[..index], policies[index].priority) == draw % candidates
  {
    var best := BestPriority(policies);
    var count := CountAt(policies, best);
    SomeAt(policies, best);
    var chosen := draw % count;
    var seen := 0;
    index := 0;
    while policies[index].priority != best || seen < chosen
      invariant index < |policies|
      invariant seen == CountAt(policies[..index], best) <= chosen
      decreases |policies| - index
    {
      OneMoreCounted(policies, index, best);
      assert policies[..|policies|] == policies;
      seen := seen + (if policies[index].priority == best then 1 else 0);
      index := index + 1;
    }
  }

  lemma NextBest(policies: seq<RoutePolicy>, i: nat, best: int)
    requires i < |policies| && IsBestPriority(policies[..i], best)
    ensures IsBestPriority(policies[..i + 1], if policies[i].priority < best then policies[i].priority else best)
  {
  }

  lemma {:induction false} SomeAt(policies: seq<RoutePolicy>, best: int)
    requires IsBestPriority(policies, best)
    ensures CountAt(policies, best) > 0
  {
    var n := |policies| - 1;
    if policies[n].priority != best {
      SomeAt(policies[..n], best);
    }
  }
}
