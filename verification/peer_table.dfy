/**
 The device's peer table: the configured peers, the shared routing table rebuilt from their
 allowed IPs, and the index that demultiplexes incoming packets to peers.
 */
module PeerTable {
  import opened Wrappers
  import opened TrieArena
  import opened AllowedIps
  import opened Wire
  import opened PeerConfigs

  datatype Error = PeerAlreadyExists | PeerNotFound | AllowedIPOverlap | Capacity

  datatype Peer = Peer(index: nat, endpoint: Option<SocketAddr>, relay: Option<PublicKey>,
                       keepalive: Option<nat>, allowedIps: Table<()>)

  // -------------------------------------------------------------------------
  // What the routing table has to be, on values
  // -------------------------------------------------------------------------

  /** The networks each configured peer claims. */
  type Claims = map<PublicKey, map<Route, ()>>

  ghost predicate Claimed(claims: Claims, k: PublicKey, r: Route)
  {
    k in claims && r in claims[k]
  }

  /** No address is claimed twice, neither by two peers nor by two networks of one peer. */
  ghost predicate Exclusive(claims: Claims)
  {
    forall k, r, k', r' {:trigger Claimed(claims, k, r), Claimed(claims, k', r'), Overlapping(r, r')} ::
      Claimed(claims, k, r) && Claimed(claims, k', r') && Overlapping(r, r') ==> k == k' && r == r'
  }

  /** The table maps exactly the claimed networks, each to its claimant. */
  ghost predicate Routes(table: map<Route, PublicKey>, claims: Claims)
  {
    && (forall r :: r in table ==> Claimed(claims, table[r], r))
    && (forall k, r :: Claimed(claims, k, r) ==> r in table && table[r] == k)
  }

  ghost function AllRoutes(claims: Claims): set<Route>
  {
    set k, r | k in claims && r in claims[k] :: r
  }

  /** More networks are claimed than the 16-bit links of a table can address. */
  ghost predicate TooManyRoutes(claims: Claims)
  {
    !Fits(AllRoutes(claims))
  }

  /** No address is claimed twice, and there is room for all networks. */
  ghost predicate Admissible(claims: Claims)
  {
    Exclusive(claims) && !TooManyRoutes(claims)
  }

  /** If what one peer claims does not fit, what all claim does not. */
  lemma OnesOwnFit(claims: Claims, key: PublicKey)
    requires key in claims
    ensures !TooManyRoutes(claims) ==> Fits(claims[key].Keys)
  {
    if Fits(AllRoutes(claims)) {
      FewerFit(claims[key].Keys, AllRoutes(claims));
    }
  }

  lemma TableHasAllRoutes(table: map<Route, PublicKey>, claims: Claims)
    requires Routes(table, claims)
    ensures table.Keys == AllRoutes(claims)
  {
    forall r | r in table
      ensures r in AllRoutes(claims)
    {
      assert Claimed(claims, table[r], r);
    }
    forall r | r in AllRoutes(claims)
      ensures r in table
    {
      var k :| k in claims && r in claims[k];
      assert Claimed(claims, k, r);
    }
  }

  /** Outbound routing and inbound source filtering agree on every address and every peer. */
  lemma RoutingAgrees(table: map<Route, PublicKey>, claims: Claims, a: IpAddr, k: PublicKey)
    requires Routes(table, claims) && Exclusive(claims)
    ensures Lookup(table, a) == Some(k) <==> k in claims && Lookup(claims[k], a).Some?
    ensures Lookup(table, a) == Some(k) <==> k in claims && exists r :: r in claims[k] && r.Contains(a)
  {
    LookupIsLongest(table, a);
    if k in claims {
      LookupIsLongest(claims[k], a);
    }
    if Lookup(table, a) == Some(k) {
      var r :| r in table && r.Contains(a) && table[r] == k;
      assert Claimed(claims, k, r);
    }
    if k in claims && Lookup(claims[k], a).Some? {
      var r :| r in claims[k] && r.Contains(a);
      assert Claimed(claims, k, r);
      var s :| s in table && s.Contains(a) && Lookup(table, a) == Some(table[s]);
      assert Overlapping(r, s) && Claimed(claims, table[s], s);
    }
  }

  lemma RemoveClaims(table: map<Route, PublicKey>, claims: Claims, key: PublicKey)
    requires Routes(table, claims) && Exclusive(claims)
    ensures Routes(Without(table, (p: PublicKey) => p == key), claims - {key}) && Exclusive(claims - {key})
  {
    var rest := claims - {key};
    assert forall k, r :: Claimed(rest, k, r) <==> k != key && Claimed(claims, k, r);
  }

  // -------------------------------------------------------------------------
  // Building a table
  // -------------------------------------------------------------------------

  ghost function AddClaim(claims: Claims, key: PublicKey, r: Route): (more: Claims)
    ensures forall k, s :: Claimed(more, k, s) <==> Claimed(claims, k, s) || (k == key && s == r)
  {
    claims[key := (if key in claims then claims[key] else map[])[r := ()]]
  }

  lemma AddRoute(table: map<Route, PublicKey>, claims: Claims, key: PublicKey, r: Route)
    requires Routes(table, claims) && Exclusive(claims) && r !in table
    requires forall s :: s in table ==> !Overlapping(r, s)
    ensures Routes(table[r := key], AddClaim(claims, key, r))
    ensures Exclusive(AddClaim(claims, key, r))
  {
  }

  ghost predicate Within(claims: Claims, all: Claims)
  {
    forall k, r :: Claimed(claims, k, r) ==> Claimed(all, k, r)
  }

  /** Exactly the claims of `built` and those of one further peer. */
  ghost predicate Joins(built: Claims, more: Claims, key: PublicKey, all: Claims)
  {
    forall k, r :: Claimed(more, k, r) <==> Claimed(built, k, r) || (k == key && Claimed(all, k, r))
  }

  /** The claims of `built` and the first `n` networks listed for `key`, all of them claims of `all`. */
  ghost predicate PartlyJoined(built: Claims, more: Claims, key: PublicKey, items: seq<(IpNet, ())>, n: nat)
    requires n <= |items|
  {
    && (forall k, r :: k != key ==> (Claimed(more, k, r) <==> Claimed(built, k, r)))
    && (forall i :: 0 <= i < |items| ==> (Claimed(more, key, RouteOf(items[i].0)) <==> i < n))
  }

  /** Adds every network of one peer, unless one of them meets what is already there. */
  method AddRoutes(table: AllowedIPs<PublicKey>, key: PublicKey, items: seq<(IpNet, ())>,
                   ghost built: Claims, ghost all: Claims)
    returns (failure: Option<Error>, ghost more: Claims)
    requires table.Valid() && Routes(table.contents, built) && Exclusive(built)
    requires key in all && ListsRoutes(all[key], items)
    requires Within(built, all) && forall r :: !Claimed(built, key, r)
    requires table.Compact()
    modifies table, table.v4, table.v6
    ensures table.Valid()
    ensures failure.None? ==> Routes(table.contents, more) && Exclusive(more) && Joins(built, more, key, all)
    ensures failure.None? ==> table.Compact()
    ensures failure.Some? ==> Refused(failure.value, all)
  {
    more := built;
    for n := 0 to |items|
      invariant table.Valid()
      invariant Routes(table.contents, more) && Exclusive(more) && Within(more, all)
      invariant PartlyJoined(built, more, key, items, n)
      invariant table.Compact()
    {
      failure := AddOneRoute(table, key, items[n].0, more, all);
      if failure.Some? {
        return;
      }
      StepJoined(built, more, key, items, n);
      more := AddClaim(more, key, RouteOf(items[n].0));
    }
    FullyJoined(built, more, key, items, all);
    failure := None;
  }

  /** Adds one claimed network, unless it meets what is already there. */
  method AddOneRoute(table: AllowedIPs<PublicKey>, key: PublicKey, net: IpNet, ghost claims: Claims, ghost all: Claims)
    returns (failure: Option<Error>)
    requires table.Valid() && Routes(table.contents, claims) && Exclusive(claims) && Within(claims, all)
    requires Claimed(all, key, RouteOf(net)) && !Claimed(claims, key, RouteOf(net))
    requires table.Compact()
    modifies table, table.v4, table.v6
    ensures table.Valid()
    ensures failure.None? ==> Routes(table.contents, AddClaim(claims, key, RouteOf(net)))
    ensures failure.None? ==> Exclusive(AddClaim(claims, key, RouteOf(net)))
    ensures failure.None? ==> table.Compact()
    ensures failure.Some? ==> Refused(failure.value, all)
  {
    var overlaps := table.Overlaps(net);
    if overlaps {
      NotExclusive(table.contents, claims, all, key, RouteOf(net));
      return Some(AllowedIPOverlap);
    }
    OverlapsItself(RouteOf(net));
    AddRoute(table.contents, claims, key, RouteOf(net));
    var inserted := table.Insert(net, key);
    if inserted.Err? {
      TooMany(table.contents, claims, all, key, RouteOf(net));
      return Some(Capacity);
    }
    return None;
  }

  lemma StepJoined(built: Claims, more: Claims, key: PublicKey, items: seq<(IpNet, ())>, n: nat)
    requires n < |items| && PartlyJoined(built, more, key, items, n)
    requires forall i, j :: 0 <= i < j < |items| ==> RouteOf(items[i].0) != RouteOf(items[j].0)
    ensures PartlyJoined(built, AddClaim(more, key, RouteOf(items[n].0)), key, items, n + 1)
  {
  }

  lemma OverlapsItself(r: Route)
    requires |r.prefix| <= Width(r.family)
    ensures Overlapping(r, r)
  {
    var a: IpAddr := Address(r.family, r.prefix + seq(Width(r.family) - |r.prefix|, _ => false));
    assert r.Contains(a);
  }

  lemma NotExclusive(table: map<Route, PublicKey>, more: Claims, all: Claims, key: PublicKey, r: Route)
    requires Routes(table, more) && Within(more, all)
    requires Claimed(all, key, r) && !Claimed(more, key, r)
    requires exists s :: s in table && Overlapping(r, s)
    ensures !Exclusive(all)
  {
  }

  lemma TooMany(table: map<Route, PublicKey>, more: Claims, all: Claims, key: PublicKey, r: Route)
    requires Routes(table, more) && Within(more, all) && Claimed(all, key, r) && !Fits(table.Keys + {r})
    ensures TooManyRoutes(all)
  {
    TableHasAllRoutes(table, more);
    forall s | s in AllRoutes(more)
      ensures s in AllRoutes(all)
    {
      var k :| k in more && s in more[k];
      assert Claimed(more, k, s) && Claimed(all, k, s);
    }
    if Fits(AllRoutes(all)) {
      FewerFit(table.Keys + {r}, AllRoutes(all));
    }
  }

  lemma FullyJoined(built: Claims, more: Claims, key: PublicKey, items: seq<(IpNet, ())>, all: Claims)
    requires key in all && ListsRoutes(all[key], items) && Within(more, all)
    requires PartlyJoined(built, more, key, items, |items|) && forall r :: !Claimed(built, key, r)
    ensures Joins(built, more, key, all)
  {
  }

  // -------------------------------------------------------------------------
  // The peer table
  // -------------------------------------------------------------------------

  /** The claims of a list of configured networks: duplicates collapse. */
  ghost function ClaimsOf(nets: seq<IpNet>): map<Route, ()>
  {
    Collect(Units(nets))
  }

  function Units(nets: seq<IpNet>): seq<(IpNet, ())>
  {
    seq(|nets|, i requires 0 <= i < |nets| => (nets[i], ()))
  }

  /** A list of networks claims each of them, as far as its prefix goes, and nothing else. */
  lemma {:induction false} ClaimsAreNetworks(nets: seq<IpNet>, r: Route)
    ensures r in ClaimsOf(nets) <==>
            exists i :: 0 <= i < |nets| && r.family == nets[i].addr.family && r.prefix == nets[i].addr.bits[..nets[i].prefixLen]
  {
    if nets != [] {
      var n := |nets| - 1;
      ClaimsAreNetworks(nets[..n], r);
      assert Units(nets)[..n] == Units(nets[..n]);
      assert r == RouteOf(nets[n]) <==> r.family == nets[n].addr.family && r.prefix == nets[n].addr.bits[..nets[n].prefixLen];
    }
  }

  /** The objects one table of allowed IPs lives in. */
  ghost function Cells<D>(t: AllowedIPs<D>): set<object>
  {
    {t, t.v4, t.v6}
  }

  /** A configured peer owns a table that holds exactly its claims, and its index leads back to it. */
  ghost predicate Owns(peers: map<PublicKey, Peer>, idx: map<nat, PublicKey>, claims: Claims, k: PublicKey)
    requires k in peers
  {
    && k in claims && peers[k].allowedIps.Ok() && peers[k].allowedIps.Contents() == claims[k]
    && peers[k].index in idx && idx[peers[k].index] == k
  }

  ghost predicate IndexOwned(peers: map<PublicKey, Peer>, idx: map<nat, PublicKey>, i: nat)
    requires i in idx
  {
    idx[i] in peers && peers[idx[i]].index == i
  }

  ghost predicate Consistent(peers: map<PublicKey, Peer>, idx: map<nat, PublicKey>, claims: Claims)
  {
    && claims.Keys == peers.Keys
    && (forall k {:trigger Owns(peers, idx, claims, k)} :: k in peers ==> Owns(peers, idx, claims, k))
    && (forall i {:trigger IndexOwned(peers, idx, i)} :: i in idx ==> IndexOwned(peers, idx, i))
  }

  lemma ConsistentInstall(peers: map<PublicKey, Peer>, idx: map<nat, PublicKey>, claims: Claims, key: PublicKey, peer: Peer)
    requires Consistent(peers, idx, claims) && peer.allowedIps.Ok()
    requires if key in peers then peer.index == peers[key].index else peer.index !in idx
    ensures Consistent(peers[key := peer], idx[peer.index := key], claims[key := peer.allowedIps.Contents()])
    ensures key in peers ==> idx[peer.index := key] == idx
  {
    var peers', idx', claims' := peers[key := peer], idx[peer.index := key], claims[key := peer.allowedIps.Contents()];
    assert key in peers ==> Owns(peers, idx, claims, key);
    forall k | k in peers'
      ensures Owns(peers', idx', claims', k)
    {
      assert k in peers ==> Owns(peers, idx, claims, k);
    }
    forall i | i in idx'
      ensures IndexOwned(peers', idx', i)
    {
      assert i in idx ==> IndexOwned(peers, idx, i);
    }
  }

  lemma ConsistentRemove(peers: map<PublicKey, Peer>, idx: map<nat, PublicKey>, claims: Claims, key: PublicKey)
    requires Consistent(peers, idx, claims) && key in peers
    ensures Consistent(peers - {key}, idx - {peers[key].index}, claims - {key})
  {
    var peers', idx', claims' := peers - {key}, idx - {peers[key].index}, claims - {key};
    assert Owns(peers, idx, claims, key);
    forall k | k in peers'
      ensures Owns(peers', idx', claims', k)
    {
      assert Owns(peers, idx, claims, k);
    }
    forall i | i in idx'
      ensures IndexOwned(peers', idx', i)
    {
      assert IndexOwned(peers, idx, i);
    }
  }

  class PeerState {
    var peers: map<PublicKey, Peer>
    /** Shared routing table, from allowed IPs to the peer that claims them. */
    var peersByIp: AllowedIPs<PublicKey>
    /** Demultiplexes the upper 24 bits of a receiver index. */
    var peersByIdx: map<nat, PublicKey>

    /** What every configured peer claims. */
    ghost var claims: Claims

    ghost predicate Valid()
      reads this, Cells(peersByIp)
    {
      && peersByIp.Valid()
      && Consistent(peers, peersByIdx, claims)
      && Routes(peersByIp.contents, claims)
      && Exclusive(claims)
    }

    constructor ()
      ensures Valid() && fresh(Cells(peersByIp)) && peers == map[] && peersByIdx == map[]
    {
      peers := map[];
      peersByIp := new AllowedIPs();
      peersByIdx := map[];
      claims := map[];
    }

    /** The peer that owns a receiver index: the lower byte only selects one of its sessions. */
    function PeerKeyByIndex(index: nat): Option<PublicKey>
      reads this
    {
      if index / 256 in peersByIdx then Some(peersByIdx[index / 256]) else None
    }

    /** Every receiver index built from a peer's index and a session byte leads back to that peer, and to no other. */
    lemma DemultiplexesToOwner(k: PublicKey, session: nat)
      requires Valid() && k in peers && session < 256
      ensures PeerKeyByIndex(peers[k].index * 256 + session) == Some(k)
      ensures forall k' :: k' in peers && peers[k'].index == peers[k].index ==> k' == k
    {
      assert Owns(peers, peersByIdx, claims, k);
      forall k' | k' in peers && peers[k'].index == peers[k].index
        ensures k' == k
      {
        assert Owns(peers, peersByIdx, claims, k');
      }
    }

    /** Routes an outbound packet: to the peer whose allowed IPs accept its destination, if any. */
    method RouteTo(dst: IpAddr) returns (peer: Option<PublicKey>)
      requires Valid()
      ensures forall k :: peer == Some(k) <==> k in peers && Lookup(claims[k], dst).Some?
    {
      peer := peersByIp.Find(dst);
      forall k
        ensures Lookup(peersByIp.contents, dst) == Some(k) <==> k in peers && Lookup(claims[k], dst).Some?
      {
        RoutingAgrees(peersByIp.contents, claims, dst, k);
      }
    }

    /** Filters an inbound packet of one peer by its source: accepted iff a reply would be routed to that peer. */
    method IsAllowedIp(key: PublicKey, src: IpAddr) returns (allowed: bool)
      requires Valid() && key in peers
      ensures allowed <==> Lookup(claims[key], src).Some?
      ensures allowed <==> Lookup(peersByIp.contents, src) == Some(key)
    {
      assert Owns(peers, peersByIdx, claims, key);
      var found := peers[key].allowedIps.Find(src);
      RoutingAgrees(peersByIp.contents, claims, src, key);
      allowed := found.Some?;
    }

    /**
     Builds the routing table for the present peers with the allowed IPs of one of them replaced,
     visiting the peers in an arbitrary order: whatever the order, a table comes back exactly when
     no address is claimed twice and the table can address all networks.
     */
    method RebuiltPeersByIpWith(updatedKey: PublicKey, updated: Table<()>, ghost all: Claims)
      returns (r: Result<AllowedIPs<PublicKey>, Error>)
      requires Valid() && updated.Ok() && all == claims[updatedKey := updated.Contents()]
      ensures r.Ok? ==> r.value.Valid() && fresh(Cells(r.value))
      ensures r.Ok? ==> Routes(r.value.contents, all)
      ensures r.Err? ==> Refused(r.error, all)
      ensures r.Ok? <==> Admissible(all)
    {
      forall k | k in peers
        ensures peers[k].allowedIps.Ok() && k in claims && peers[k].allowedIps.Contents() == claims[k]
      {
        assert Owns(peers, peersByIdx, claims, k);
      }
      r := RebuildTable(peers, updatedKey, updated, all);
    }

    /** Collects one peer's networks and the routing table they would lead to. */
    method Prepare(key: PublicKey, nets: seq<IpNet>) returns (r: Result<(Table<()>, AllowedIPs<PublicKey>), Error>)
      requires Valid()
      ensures r.Ok? ==> r.value.0.Ok() && r.value.0.Contents() == ClaimsOf(nets)
      ensures r.Ok? ==> r.value.1.Valid() && fresh(Cells(r.value.1))
      ensures r.Ok? ==> Routes(r.value.1.contents, claims[key := ClaimsOf(nets)]) && Exclusive(claims[key := ClaimsOf(nets)])
      ensures r.Err? ==> Refused(r.error, claims[key := ClaimsOf(nets)])
      ensures r.Ok? ==> !TooManyRoutes(claims[key := ClaimsOf(nets)])
    {
      var allowed := AllowedIpsFromSlice(nets);
      if allowed.Err? {
        OnesOwnFit(claims[key := ClaimsOf(nets)], key);
        return Err(Capacity);
      }
      var table := RebuiltPeersByIpWith(key, allowed.value, claims[key := ClaimsOf(nets)]);
      if table.Err? {
        return Err(table.error);
      }
      return Ok((allowed.value, table.value));
    }

    /** Installs a prepared peer and routing table. */
    method Install(key: PublicKey, peer: Peer, table: AllowedIPs<PublicKey>)
      requires Valid() && table.Valid() && peer.allowedIps.Ok()
      requires Routes(table.contents, claims[key := peer.allowedIps.Contents()])
      requires Exclusive(claims[key := peer.allowedIps.Contents()])
      requires if key in peers then peer.index == peers[key].index else peer.index !in peersByIdx
      modifies this
      ensures Valid()
      ensures peers == old(peers)[key := peer]
      ensures claims == old(claims)[key := peer.allowedIps.Contents()]
      ensures peersByIdx == old(peersByIdx)[peer.index := key] && peersByIp == table
    {
      ConsistentInstall(peers, peersByIdx, claims, key, peer);
      peers := peers[key := peer];
      peersByIdx := peersByIdx[peer.index := key];
      peersByIp := table;
      claims := claims[key := peer.allowedIps.Contents()];
    }

    /** Adds a peer under a fresh index, or leaves the peer table as it was. */
    method AddPeer(config: PeerConfig, index: nat) returns (r: Result<(), Error>)
      requires Valid()
      requires index !in peersByIdx
      modifies this
      ensures Valid() && (r.Ok? ==> fresh(Cells(peersByIp)))
      ensures r.Ok? ==> config.publicKey in peers && peers == old(peers)[config.publicKey := peers[config.publicKey]]
      ensures r.Ok? ==> peers[config.publicKey].index == index && Follows(peers[config.publicKey], config)
      ensures r.Ok? ==> claims == old(claims)[config.publicKey := ClaimsOf(config.allowedIps)]
      ensures r.Ok? ==> peersByIdx == old(peersByIdx)[index := config.publicKey]
      ensures r.Err? ==> peers == old(peers) && peersByIp == old(peersByIp) && peersByIdx == old(peersByIdx)
      ensures r == Err(PeerAlreadyExists) <==> config.publicKey in old(peers)
      ensures r.Ok? <==> config.publicKey !in old(peers) &&
                         Admissible(old(claims)[config.publicKey := ClaimsOf(config.allowedIps)])
      ensures r.Err? && r.error != PeerAlreadyExists ==>
                Refused(r.error, old(claims)[config.publicKey := ClaimsOf(config.allowedIps)])
    {
      if config.publicKey in peers {
        return Err(PeerAlreadyExists);
      }
      var prepared := Prepare(config.publicKey, config.allowedIps);
      if prepared.Err? {
        return Err(prepared.error);
      }
      var peer := Peer(index, config.endpoint, config.relay, config.keepalive, prepared.value.0);
      Install(config.publicKey, peer, prepared.value.1);
      return Ok(());
    }

    /** Replaces the runtime configuration of a peer, or leaves the peer table as it was. */
    method UpdatePeer(config: PeerConfig) returns (r: Result<(), Error>)
      requires Valid()
      modifies this
      ensures Valid() && (r.Ok? ==> fresh(Cells(peersByIp)))
      ensures r.Ok? ==> config.publicKey in peers && peers == old(peers)[config.publicKey := peers[config.publicKey]]
      ensures r.Ok? ==> config.publicKey in old(peers) && peers[config.publicKey].index == old(peers)[config.publicKey].index
      ensures r.Ok? ==> Follows(peers[config.publicKey], config)
      ensures r.Ok? ==> claims == old(claims)[config.publicKey := ClaimsOf(config.allowedIps)]
      ensures r.Err? ==> peers == old(peers) && peersByIp == old(peersByIp)
      ensures peersByIdx == old(peersByIdx)
      ensures r == Err(PeerNotFound) <==> config.publicKey !in old(peers)
      ensures r.Ok? <==> config.publicKey in old(peers) &&
                         Admissible(old(claims)[config.publicKey := ClaimsOf(config.allowedIps)])
      ensures r.Err? && r.error != PeerNotFound ==>
                Refused(r.error, old(claims)[config.publicKey := ClaimsOf(config.allowedIps)])
    {
      if config.publicKey !in peers {
        return Err(PeerNotFound);
      }
      var prepared := Prepare(config.publicKey, config.allowedIps);
      if prepared.Err? {
        return Err(prepared.error);
      }
      var peer := peers[config.publicKey].(endpoint := config.endpoint, relay := config.relay,
                                           keepalive := config.keepalive, allowedIps := prepared.value.0);
      assert Owns(peers, peersByIdx, claims, config.publicKey);
      ConsistentInstall(peers, peersByIdx, claims, config.publicKey, peer);
      Install(config.publicKey, peer, prepared.value.1);
      return Ok(());
    }

    /** Removes a peer, its index and its routes; an unknown key changes nothing. */
    method RemovePeer(key: PublicKey)
      requires Valid()
      modifies this, Cells(peersByIp)
      ensures Valid()
      ensures peers == old(peers) - {key}
      ensures claims == old(claims) - {key}
      ensures peersByIdx == if key in old(peers) then old(peersByIdx) - {old(peers)[key].index} else old(peersByIdx)
      ensures peersByIp == old(peersByIp)
    {
      if key in peers {
        RemoveClaims(peersByIp.contents, claims, key);
        ConsistentRemove(peers, peersByIdx, claims, key);
        peersByIdx := peersByIdx - {peers[key].index};
        peers := peers - {key};
        claims := claims - {key};
        peersByIp.Remove((p: PublicKey) => p == key);
      }
    }
  }

  /** The table one peer's configured networks make up. */
  method AllowedIpsFromSlice(nets: seq<IpNet>) returns (r: Result<Table<()>, TrieError>)
    ensures r.Ok? ==> r.value.Ok() && r.value.Contents() == ClaimsOf(nets)
    ensures r.Ok? <==> Fits(ClaimsOf(nets).Keys)
  {
    var built := TryFromIter(Units(nets));
    if built.Err? {
      return Err(built.error);
    }
    var value := built.value.ToValue();
    return Ok(value);
  }

  /** The runtime configuration of a peer is the configured one. */
  ghost predicate Follows(peer: Peer, config: PeerConfig)
  {
    peer.endpoint == config.endpoint && peer.relay == config.relay && peer.keepalive == config.keepalive
  }

  /** Why a set of claims was refused: an address is claimed twice, or there are too many routes. */
  ghost predicate Refused(error: Error, all: Claims)
  {
    (error == AllowedIPOverlap && !Exclusive(all)) || (error == Capacity && TooManyRoutes(all))
  }

  /** Adds everything one peer claims. */
  method AddPeerRoutes(table: AllowedIPs<PublicKey>, key: PublicKey, allowedIps: Table<()>, ghost built: Claims,
                       ghost all: Claims)
    returns (failure: Option<Error>, ghost more: Claims)
    requires table.Valid() && Routes(table.contents, built) && Exclusive(built)
    requires allowedIps.Ok() && key in all && all[key] == allowedIps.Contents()
    requires Within(built, all) && forall r :: !Claimed(built, key, r)
    requires table.Compact()
    modifies Cells(table)
    ensures table.Valid()
    ensures failure.None? ==> Routes(table.contents, more) && Exclusive(more) && Joins(built, more, key, all)
    ensures failure.None? ==> table.Compact()
    ensures failure.Some? ==> Refused(failure.value, all)
  {
    var items := allowedIps.Iter();
    failure, more := AddRoutes(table, key, items, built, all);
  }

  /** `built` holds the claims of the peers visited so far. */
  ghost predicate Visited(built: Claims, all: Claims, keys: set<PublicKey>, todo: set<PublicKey>)
  {
    forall k, r :: Claimed(built, k, r) <==> k in keys && k !in todo && Claimed(all, k, r)
  }

  lemma VisitedOne(built: Claims, more: Claims, key: PublicKey, all: Claims, keys: set<PublicKey>, todo: set<PublicKey>)
    requires Visited(built, all, keys, todo) && Joins(built, more, key, all) && key in todo && todo <= keys
    ensures Visited(more, all, keys, todo - {key})
  {
  }

  lemma FoundSoFar(keys: set<PublicKey>, todo: set<PublicKey>, key: PublicKey, wanted: PublicKey)
    requires key in todo && todo <= keys
    ensures wanted in keys - (todo - {key}) <==> wanted in keys - todo || key == wanted
  {
  }

  /** Visits the peers in any order, with the networks of one of them replaced. */
  method VisitAll(peers: map<PublicKey, Peer>, updatedKey: PublicKey, updated: Table<()>, ghost all: Claims)
    returns (r: Result<AllowedIPs<PublicKey>, Error>, found: bool, ghost built: Claims)
    requires all.Keys == peers.Keys + {updatedKey}
    requires updated.Ok() && all[updatedKey] == updated.Contents()
    requires forall k :: k in peers && k != updatedKey ==> peers[k].allowedIps.Ok() && all[k] == peers[k].allowedIps.Contents()
    ensures r.Ok? ==> r.value.Valid() && fresh(Cells(r.value)) && r.value.Compact()
    ensures r.Ok? ==> Routes(r.value.contents, built) && Exclusive(built) && Visited(built, all, peers.Keys, {})
    ensures r.Ok? ==> (found <==> updatedKey in peers)
    ensures r.Err? ==> Refused(r.error, all)
  {
    var table := new AllowedIPs<PublicKey>();
    built, found := map[], false;
    var todo := peers.Keys;
    while todo != {}
      invariant todo <= peers.Keys
      invariant fresh(Cells(table)) && table.Valid() && table.Compact()
      invariant Routes(table.contents, built) && Exclusive(built)
      invariant Visited(built, all, peers.Keys, todo)
      invariant found <==> updatedKey in peers.Keys - todo
      decreases todo
    {
      var key :| key in todo;
      FoundSoFar(peers.Keys, todo, key, updatedKey);
      found := found || key == updatedKey;
      var allowedIps := if key == updatedKey then updated else peers[key].allowedIps;
      var failure, more := AddPeerRoutes(table, key, allowedIps, built, all);
      if failure.Some? {
        return Err(failure.value), found, built;
      }
      VisitedOne(built, more, key, all, peers.Keys, todo);
      built := more;
      todo := todo - {key};
    }
    r := Ok(table);
  }

  /** Builds the table anew; a peer that is not among the others yet comes last. */
  method RebuildTable(peers: map<PublicKey, Peer>, updatedKey: PublicKey, updated: Table<()>, ghost all: Claims)
    returns (r: Result<AllowedIPs<PublicKey>, Error>)
    requires all.Keys == peers.Keys + {updatedKey}
    requires updated.Ok() && all[updatedKey] == updated.Contents()
    requires forall k :: k in peers && k != updatedKey ==> peers[k].allowedIps.Ok() && all[k] == peers[k].allowedIps.Contents()
    ensures r.Ok? ==> r.value.Valid() && fresh(Cells(r.value))
    ensures r.Ok? ==> Routes(r.value.contents, all)
    ensures r.Err? ==> Refused(r.error, all)
    ensures r.Ok? <==> Admissible(all)
  {
    var found;
    ghost var built;
    r, found, built := VisitAll(peers, updatedKey, updated, all);
    if r.Err? {
      return;
    }
    if !found {
      var failure;
      failure, built := AddPeerRoutes(r.value, updatedKey, updated, built, all);
      if failure.Some? {
        return Err(failure.value);
      }
    }
    SameClaims(r.value.contents, built, all);
    TableHasAllRoutes(r.value.contents, all);
    r.value.CompactFits();
  }

  lemma SameClaims(table: map<Route, PublicKey>, built: Claims, all: Claims)
    requires Routes(table, built) && Exclusive(built)
    requires forall k, r :: Claimed(built, k, r) <==> Claimed(all, k, r)
    ensures Routes(table, all) && Exclusive(all)
  {
  }
}
