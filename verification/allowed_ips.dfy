/** Networks of both address families and the table of allowed IPs, one trie per family. */
module AllowedIps {
  import opened Wrappers
  import opened Prefixes
  import opened TrieArena
  import opened PrefixTrie
  import BP = BranchPoints

  datatype Family = V4 | V6

  function Width(f: Family): nat
  {
    if f == V4 then 32 else 128
  }

  datatype Address = Address(family: Family, bits: Word)

  type IpAddr = a: Address | |a.bits| == Width(a.family) witness Address(V4, seq(32, _ => false))

  datatype SocketAddr = SocketAddr(ip: IpAddr, port: nat)

  datatype Network = Network(addr: IpAddr, prefixLen: nat)

  /** A CIDR block as configured; its address may still carry host bits. */
  type IpNet = n: Network | n.prefixLen <= Width(n.addr.family) witness Network(Address(V4, seq(32, _ => false)), 0)

  /** The address with its host bits cleared. */
  function NetworkAddr(n: IpNet): IpAddr
  {
    Address(n.addr.family, Mask(n.addr.bits, n.prefixLen))
  }

  /** What a CIDR block stands for: a family and its significant bits. */
  datatype Route = Route(family: Family, prefix: Prefix)
  {
    ghost predicate Contains(a: IpAddr)
    {
      a.family == family && prefix <= a.bits
    }
  }

  function RouteOf(n: IpNet): (r: Route)
    ensures |r.prefix| <= Width(r.family)
  {
    Route(n.addr.family, n.addr.bits[..n.prefixLen])
  }

  /** Some address belongs to both networks. */
  ghost predicate Overlapping(r: Route, s: Route)
  {
    exists a: IpAddr :: r.Contains(a) && s.Contains(a)
  }

  lemma OverlappingIsShareAddress(r: Route, s: Route)
    ensures Overlapping(r, s) <==> r.family == s.family && ShareAddress(r.prefix, s.prefix, Width(r.family))
  {
    if r.family == s.family && ShareAddress(r.prefix, s.prefix, Width(r.family)) {
      var bits: Word :| |bits| == Width(r.family) && r.prefix <= bits && s.prefix <= bits;
      var a: IpAddr := Address(r.family, bits);
      assert r.Contains(a) && s.Contains(a);
    }
    if Overlapping(r, s) {
      var a: IpAddr :| r.Contains(a) && s.Contains(a);
      assert |a.bits| == Width(r.family) && r.prefix <= a.bits && s.prefix <= a.bits;
    }
  }

  // -------------------------------------------------------------------------
  // One map for both families
  // -------------------------------------------------------------------------

  function Side<D>(m4: map<Prefix, D>, m6: map<Prefix, D>, f: Family): map<Prefix, D>
  {
    if f == V4 then m4 else m6
  }

  ghost function Combine<D>(m4: map<Prefix, D>, m6: map<Prefix, D>): (m: map<Route, D>)
  {
    var routes := (set p | p in m4 :: Route(V4, p)) + (set p | p in m6 :: Route(V6, p));
    map r | r in routes :: Side(m4, m6, r.family)[r.prefix]
  }

  lemma CombineAt<D>(m4: map<Prefix, D>, m6: map<Prefix, D>, r: Route)
    ensures r in Combine(m4, m6) <==> r.prefix in Side(m4, m6, r.family)
    ensures r in Combine(m4, m6) ==> Combine(m4, m6)[r] == Side(m4, m6, r.family)[r.prefix]
  {
  }

  lemma SameMap<K, D>(m: map<K, D>, n: map<K, D>)
    requires forall k :: k in m <==> k in n
    requires forall k :: k in m ==> k in n && m[k] == n[k]
    ensures m == n
  {
  }

  lemma CombineUpdate<D>(m4: map<Prefix, D>, m6: map<Prefix, D>, r: Route, data: D)
    ensures r.family == V4 ==> Combine(m4[r.prefix := data], m6) == Combine(m4, m6)[r := data]
    ensures r.family == V6 ==> Combine(m4, m6[r.prefix := data]) == Combine(m4, m6)[r := data]
  {
    var n4 := if r.family == V4 then m4[r.prefix := data] else m4;
    var n6 := if r.family == V6 then m6[r.prefix := data] else m6;
    var m, n := Combine(m4, m6)[r := data], Combine(n4, n6);
    forall s: Route
      ensures s in n <==> s in m
      ensures s in n ==> n[s] == m[s]
    {
      CombineAt(m4, m6, s);
      CombineAt(n4, n6, s);
    }
    SameMap(n, m);
  }

  function Without<K, D>(m: map<K, D>, selects: D -> bool): map<K, D>
  {
    map k | k in m && !selects(m[k]) :: m[k]
  }

  lemma CombineWithout<D>(m4: map<Prefix, D>, m6: map<Prefix, D>, selects: D -> bool)
    ensures Combine(Without(m4, selects), Without(m6, selects)) == Without(Combine(m4, m6), selects)
  {
    var m, n := Without(Combine(m4, m6), selects), Combine(Without(m4, selects), Without(m6, selects));
    forall s: Route
      ensures s in n <==> s in m
      ensures s in n ==> n[s] == m[s]
    {
      CombineAt(m4, m6, s);
      CombineAt(Without(m4, selects), Without(m6, selects), s);
    }
    SameMap(n, m);
  }

  /** Only entries of the same family can overlap a route. */
  lemma OverlapInFamily<D>(m4: map<Prefix, D>, m6: map<Prefix, D>, route: Route)
    ensures (exists q :: q in Side(m4, m6, route.family) && ShareAddress(route.prefix, q, Width(route.family)))
       <==> (exists r :: r in Combine(m4, m6) && Overlapping(route, r))
  {
    if q :| q in Side(m4, m6, route.family) && ShareAddress(route.prefix, q, Width(route.family)) {
      OverlappingIsShareAddress(route, Route(route.family, q));
      CombineAt(m4, m6, Route(route.family, q));
    }
    if r :| r in Combine(m4, m6) && Overlapping(route, r) {
      OverlappingIsShareAddress(route, r);
      CombineAt(m4, m6, r);
    }
  }

  /** The payload of the most specific network among those with at most `n` bits that contains `a`. */
  function LongestRoute<D>(m: map<Route, D>, a: IpAddr, n: nat): Option<D>
    requires n <= |a.bits|
  {
    var r := Route(a.family, a.bits[..n]);
    if r in m then Some(m[r]) else if n == 0 then None else LongestRoute(m, a, n - 1)
  }

  function Lookup<D>(m: map<Route, D>, a: IpAddr): Option<D>
  {
    LongestRoute(m, a, |a.bits|)
  }

  lemma {:induction false} LongestRouteIsLongestMatch<D>(m4: map<Prefix, D>, m6: map<Prefix, D>, a: IpAddr, n: nat)
    requires n <= |a.bits|
    ensures LongestRoute(Combine(m4, m6), a, n) == LongestMatch(if a.family == V4 then m4 else m6, a.bits, n)
  {
    var r := Route(a.family, a.bits[..n]);
    CombineAt(m4, m6, r);
    if n > 0 {
      LongestRouteIsLongestMatch(m4, m6, a, n - 1);
    }
  }

  /** A lookup finds the most specific network containing the address, and nothing iff there is none. */
  lemma {:induction false} LongestRouteIsLongest<D>(m: map<Route, D>, a: IpAddr, n: nat)
    requires n <= |a.bits|
    ensures LongestRoute(m, a, n) == None ==> forall r :: r in m && r.Contains(a) ==> |r.prefix| > n
    ensures LongestRoute(m, a, n) != None ==>
              exists r :: r in m && r.Contains(a) && LongestRoute(m, a, n) == Some(m[r])
                          && forall s :: s in m && s.Contains(a) && |s.prefix| <= n ==> |s.prefix| <= |r.prefix|
  {
    var r := Route(a.family, a.bits[..n]);
    assert r.Contains(a);
    if r !in m {
      forall s | s in m && s.Contains(a) && |s.prefix| <= n
        ensures |s.prefix| < n
      {
        assert s == Route(a.family, a.bits[..|s.prefix|]);
      }
      if n > 0 {
        LongestRouteIsLongest(m, a, n - 1);
      }
    }
  }

  /** A lookup is answered exactly if some network contains the address, by the longest that does. */
  lemma LookupIsLongest<D>(m: map<Route, D>, a: IpAddr)
    ensures Lookup(m, a).Some? <==> exists r :: r in m && r.Contains(a)
    ensures Lookup(m, a).Some? ==>
              exists r :: r in m && r.Contains(a) && Lookup(m, a) == Some(m[r])
                          && forall s :: s in m && s.Contains(a) ==> |s.prefix| <= |r.prefix|
  {
    LongestRouteIsLongest(m, a, |a.bits|);
    assert forall r: Route :: r.Contains(a) ==> |r.prefix| <= |a.bits|;
  }

  // -------------------------------------------------------------------------
  // How many networks fit
  // -------------------------------------------------------------------------

  ghost function PrefixesOf(routes: set<Route>, family: Family): set<Prefix>
  {
    set r | r in routes && r.family == family :: r.prefix
  }

  /** Each family's networks, with the root and the places where they branch off, can be addressed by 16-bit links. */
  ghost predicate Fits(routes: set<Route>)
  {
    && |BP.Nodes(PrefixesOf(routes, V4))| <= MAX_STORED_INDEX
    && |BP.Nodes(PrefixesOf(routes, V6))| <= MAX_STORED_INDEX
  }

  lemma SidePrefixes<D>(m4: map<Prefix, D>, m6: map<Prefix, D>)
    ensures PrefixesOf(Combine(m4, m6).Keys, V4) == m4.Keys && PrefixesOf(Combine(m4, m6).Keys, V6) == m6.Keys
  {
    forall p
      ensures p in PrefixesOf(Combine(m4, m6).Keys, V4) <==> p in m4
      ensures p in PrefixesOf(Combine(m4, m6).Keys, V6) <==> p in m6
    {
      CombineAt(m4, m6, Route(V4, p));
      CombineAt(m4, m6, Route(V6, p));
      assert p in m4 ==> Route(V4, p) in Combine(m4, m6).Keys;
      assert p in m6 ==> Route(V6, p) in Combine(m4, m6).Keys;
    }
  }

  lemma OneMorePrefix(routes: set<Route>, r: Route)
    ensures PrefixesOf(routes + {r}, r.family) == PrefixesOf(routes, r.family) + {r.prefix}
    ensures forall f :: f != r.family ==> PrefixesOf(routes + {r}, f) == PrefixesOf(routes, f)
  {
  }

  /** One more network fits if its own family still does. */
  lemma OneMoreFits<D>(m4: map<Prefix, D>, m6: map<Prefix, D>, r: Route)
    requires |BP.Nodes(m4.Keys)| <= MAX_STORED_INDEX && |BP.Nodes(m6.Keys)| <= MAX_STORED_INDEX
    ensures Fits(Combine(m4, m6).Keys + {r}) <==> Room(Side(m4, m6, r.family), r.prefix)
  {
    SidePrefixes(m4, m6);
    OneMorePrefix(Combine(m4, m6).Keys, r);
  }

  lemma FewerFit(routes: set<Route>, more: set<Route>)
    requires routes <= more && Fits(more)
    ensures Fits(routes)
  {
    FewerNodes(routes, more, V4);
    FewerNodes(routes, more, V6);
  }

  lemma FewerNodes(routes: set<Route>, more: set<Route>, f: Family)
    requires routes <= more
    ensures |BP.Nodes(PrefixesOf(routes, f))| <= |BP.Nodes(PrefixesOf(more, f))|
  {
    BP.NodesGrow(PrefixesOf(routes, f), PrefixesOf(more, f));
    BP.Smaller(BP.Nodes(PrefixesOf(routes, f)), BP.Nodes(PrefixesOf(more, f)));
  }

  /** Up to 32767 networks of a family always fit. */
  lemma FewFit(routes: set<Route>)
    requires |PrefixesOf(routes, V4)| <= 32767 && |PrefixesOf(routes, V6)| <= 32767
    ensures Fits(routes)
  {
    BP.AtMostTwoEach(PrefixesOf(routes, V4));
    BP.AtMostTwoEach(PrefixesOf(routes, V6));
  }

  /** More than 32768 networks of a family, of which none contains another, never fit. */
  lemma ManyDoNotFit(routes: set<Route>, f: Family)
    requires |PrefixesOf(routes, f)| > 32768 && BP.Incomparable(PrefixesOf(routes, f))
    requires BP.Fitting(PrefixesOf(routes, f), Width(f))
    ensures !Fits(routes)
  {
    BP.NodesOfIncomparable(PrefixesOf(routes, f), Width(f));
  }

  // -------------------------------------------------------------------------
  // The table
  // -------------------------------------------------------------------------

  class AllowedIPs<D> {
    const v4: Trie<D>
    const v6: Trie<D>

    /** The networks of both families with their payloads. */
    ghost var contents: map<Route, D>

    ghost predicate Valid()
      reads this, v4, v6
    {
      && v4 != v6 && v4.width == 32 && v6.width == 128
      && v4.Valid() && v6.Valid()
      && contents == Combine(v4.contents, v6.contents)
    }

    /** Both tries have just the nodes their networks need, as long as nothing has been removed. */
    ghost predicate Compact()
      reads this, v4, v6
    {
      v4.Compact() && v6.Compact()
    }

    /** What is in a table fits. */
    lemma CompactFits()
      requires Valid() && Compact()
      ensures Fits(contents.Keys)
      ensures |BP.Nodes(v4.contents.Keys)| <= MAX_STORED_INDEX && |BP.Nodes(v6.contents.Keys)| <= MAX_STORED_INDEX
    {
      SidePrefixes(v4.contents, v6.contents);
      BP.KeyCount(v4.nodes);
      BP.KeyCount(v6.nodes);
    }

    constructor ()
      ensures Valid() && fresh(v4) && fresh(v6)
      ensures contents == map[] && Compact()
    {
      v4 := new Trie(32);
      v6 := new Trie(128);
      contents := map[];
    }

    method Clear()
      requires Valid()
      modifies this, v4, v6
      ensures Valid() && contents == map[] && Compact()
    {
      v4.Clear();
      v6.Clear();
      contents := map[];
    }

    method Insert(network: IpNet, data: D) returns (r: Result<Option<D>, TrieError>)
      requires Valid()
      modifies this, v4, v6
      ensures Valid()
      ensures r.Ok? ==> contents == old(contents)[RouteOf(network) := data]
      ensures r.Ok? ==> r.value == if RouteOf(network) in old(contents) then Some(old(contents)[RouteOf(network)]) else None
      ensures r.Err? ==> r.error == Full && contents == old(contents)
      ensures old(Compact()) ==> Compact() && (r.Ok? <==> Fits(old(contents).Keys + {RouteOf(network)}))
    {
      if Compact() {
        CompactFits();
        OneMoreFits(v4.contents, v6.contents, RouteOf(network));
      }
      r := InsertIn(network, data);
    }

    method InsertIn(network: IpNet, data: D) returns (r: Result<Option<D>, TrieError>)
      requires Valid()
      modifies this, v4, v6
      ensures Valid()
      ensures r.Ok? ==> contents == old(contents)[RouteOf(network) := data]
      ensures r.Ok? ==> r.value == if RouteOf(network) in old(contents) then Some(old(contents)[RouteOf(network)]) else None
      ensures r.Err? ==> r.error == Full && contents == old(contents)
      ensures old(Compact()) ==>
                Compact() && (r.Ok? <==> Room(Side(old(v4.contents), old(v6.contents), network.addr.family), RouteOf(network).prefix))
    {
      var masked := NetworkAddr(network);
      assert masked.bits[..network.prefixLen] == RouteOf(network).prefix;
      CombineAt(v4.contents, v6.contents, RouteOf(network));
      CombineUpdate(v4.contents, v6.contents, RouteOf(network), data);
      if masked.family == V4 {
        r := v4.Insert(masked.bits, network.prefixLen, data);
      } else {
        r := v6.Insert(masked.bits, network.prefixLen, data);
      }
      contents := if r.Ok? then contents[RouteOf(network) := data] else contents;
    }

    method Find(key: IpAddr) returns (r: Option<D>)
      requires Valid()
      ensures r == Lookup(contents, key)
    {
      LongestRouteIsLongestMatch(v4.contents, v6.contents, key, |key.bits|);
      if key.family == V4 {
        r := v4.Find(key.bits);
      } else {
        r := v6.Find(key.bits);
      }
    }

    method Overlaps(network: IpNet) returns (overlaps: bool)
      requires Valid()
      ensures overlaps <==> exists r :: r in contents && Overlapping(RouteOf(network), r)
    {
      var masked := NetworkAddr(network);
      ghost var route := RouteOf(network);
      assert masked.bits[..network.prefixLen] == route.prefix;
      if masked.family == V4 {
        overlaps := v4.Overlaps(masked.bits, network.prefixLen);
      } else {
        overlaps := v6.Overlaps(masked.bits, network.prefixLen);
      }
      OverlapInFamily(v4.contents, v6.contents, route);
    }

    method Remove(selects: D -> bool)
      requires Valid()
      modifies this, v4, v6
      ensures Valid()
      ensures contents == Without(old(contents), selects)
    {
      CombineWithout(v4.contents, v6.contents, selects);
      v4.Remove(selects);
      v6.Remove(selects);
      contents := Without(contents, selects);
    }

    /** The stored networks, IPv4 first: each exactly once, with its payload. */
    method Iter() returns (items: seq<(IpNet, D)>)
      requires Valid()
      ensures ListsRoutes(contents, items)
    {
      var items4 := v4.Iter();
      var items6 := v6.Iter();
      items := ToNets(V4, items4) + ToNets(V6, items6);
      BothFamilies(v4.contents, v6.contents, items4, items6);
    }

    /** The table as a value, for an owner that will only read it. */
    method ToValue() returns (t: Table<D>)
      requires Valid()
      ensures t.Ok() && t.Contents() == contents
    {
      t := Table(v4.nodes, v6.nodes);
    }
  }

  /** A table of allowed IPs that is no longer changed: the arenas of its two tries. */
  datatype Table<D> = Table(nodes4: seq<Node<D>>, nodes6: seq<Node<D>>)
  {
    ghost predicate Ok()
    {
      Arena(nodes4, 32) && Arena(nodes6, 128)
    }

    ghost function Contents(): map<Route, D>
    {
      Combine(Entries(nodes4), Entries(nodes6))
    }

    method Find(key: IpAddr) returns (r: Option<D>)
      requires Ok()
      ensures r == Lookup(Contents(), key)
    {
      LongestRouteIsLongestMatch(Entries(nodes4), Entries(nodes6), key, |key.bits|);
      if key.family == V4 {
        r := FindIn(nodes4, 32, key.bits);
      } else {
        r := FindIn(nodes6, 128, key.bits);
      }
    }

    method Iter() returns (items: seq<(IpNet, D)>)
      requires Ok()
      ensures ListsRoutes(Contents(), items)
    {
      var items4 := IterOver(nodes4, 32);
      var items6 := IterOver(nodes6, 128);
      items := ToNets(V4, items4) + ToNets(V6, items6);
      BothFamilies(Entries(nodes4), Entries(nodes6), items4, items6);
    }
  }

  /** `items` is the map, each entry exactly once. */
  ghost predicate ListsRoutes<D>(m: map<Route, D>, items: seq<(IpNet, D)>)
  {
    && (forall k :: 0 <= k < |items| ==> RouteOf(items[k].0) in m && m[RouteOf(items[k].0)] == items[k].1)
    && (forall r :: r in m ==> exists k :: 0 <= k < |items| && RouteOf(items[k].0) == r)
    && (forall j, k :: 0 <= j < k < |items| ==> RouteOf(items[j].0) != RouteOf(items[k].0))
  }

  function ToNets<D>(family: Family, items: seq<Item<D>>): (nets: seq<(IpNet, D)>)
    requires forall k :: 0 <= k < |items| ==> |items[k].prefix| == Width(family) && items[k].prefixLen <= Width(family)
    ensures |nets| == |items|
    ensures forall k :: 0 <= k < |nets| ==> RouteOf(nets[k].0) == Route(family, items[k].Bits()) && nets[k].1 == items[k].data
  {
    seq(|items|, k requires 0 <= k < |items| => (Network(Address(family, items[k].prefix), items[k].prefixLen), items[k].data))
  }

  /** The route of item `k` of both families. */
  ghost function RouteAt<D>(items4: seq<Item<D>>, items6: seq<Item<D>>, k: nat): Route
    requires k < |items4| + |items6|
  {
    if k < |items4| then Route(V4, items4[k].Bits()) else Route(V6, items6[k - |items4|].Bits())
  }

  lemma ItemOfFamily<D>(m4: map<Prefix, D>, m6: map<Prefix, D>, items4: seq<Item<D>>, items6: seq<Item<D>>, k: nat)
    requires ListsEntries(m4, Width(V4), items4) && ListsEntries(m6, Width(V6), items6)
    requires k < |items4| + |items6|
    ensures var items := ToNets(V4, items4) + ToNets(V6, items6);
            RouteOf(items[k].0) == RouteAt(items4, items6, k) &&
            RouteAt(items4, items6, k) in Combine(m4, m6) && Combine(m4, m6)[RouteAt(items4, items6, k)] == items[k].1
  {
  }

  lemma ItemOfRoute<D>(m4: map<Prefix, D>, m6: map<Prefix, D>, items4: seq<Item<D>>, items6: seq<Item<D>>, r: Route)
    returns (k: nat)
    requires ListsEntries(m4, Width(V4), items4) && ListsEntries(m6, Width(V6), items6)
    requires r in Combine(m4, m6)
    ensures k < |items4| + |items6| && RouteAt(items4, items6, k) == r
  {
    CombineAt(m4, m6, r);
    if r.family == V4 {
      k :| 0 <= k < |items4| && items4[k].Bits() == r.prefix;
    } else {
      var i :| 0 <= i < |items6| && items6[i].Bits() == r.prefix;
      k := |items4| + i;
    }
  }

  lemma BothFamilies<D>(m4: map<Prefix, D>, m6: map<Prefix, D>, items4: seq<Item<D>>, items6: seq<Item<D>>)
    requires ListsEntries(m4, Width(V4), items4) && ListsEntries(m6, Width(V6), items6)
    ensures ListsRoutes(Combine(m4, m6), ToNets(V4, items4) + ToNets(V6, items6))
  {
    var items := ToNets(V4, items4) + ToNets(V6, items6);
    forall k | 0 <= k < |items|
      ensures RouteOf(items[k].0) == RouteAt(items4, items6, k)
      ensures RouteOf(items[k].0) in Combine(m4, m6) && Combine(m4, m6)[RouteOf(items[k].0)] == items[k].1
    {
      ItemOfFamily(m4, m6, items4, items6, k);
    }
    forall r | r in Combine(m4, m6)
      ensures exists k :: 0 <= k < |items| && RouteOf(items[k].0) == r
    {
      var k := ItemOfRoute(m4, m6, items4, items6, r);
      assert RouteOf(items[k].0) == r;
    }
  }

  /** The map a list of insertions builds; later entries for the same network win. */
  ghost function Collect<D>(nets: seq<(IpNet, D)>): map<Route, D>
  {
    if nets == [] then map[]
    else Collect(nets[..|nets| - 1])[RouteOf(nets[|nets| - 1].0) := nets[|nets| - 1].1]
  }

  lemma {:induction false} CollectGrows<D>(nets: seq<(IpNet, D)>, i: nat)
    requires i <= |nets|
    ensures Collect(nets[..i]).Keys <= Collect(nets).Keys
    decreases |nets|
  {
    if i == |nets| {
      assert nets[..i] == nets;
    } else {
      var n := |nets| - 1;
      CollectGrows(nets[..n], i);
      assert nets[..n][..i] == nets[..i];
    }
  }

  method InsertAt<D>(table: AllowedIPs<D>, nets: seq<(IpNet, D)>, i: nat) returns (ok: bool)
    requires table.Valid() && i < |nets| && table.contents == Collect(nets[..i]) && table.Compact()
    modifies table, table.v4, table.v6
    ensures table.Valid() && table.Compact()
    ensures ok ==> table.contents == Collect(nets[..i + 1])
    ensures !ok ==> !Fits(Collect(nets).Keys)
  {
    assert nets[..i + 1][..i] == nets[..i];
    var inserted := table.Insert(nets[i].0, nets[i].1);
    ok := inserted.Ok?;
    if !ok {
      StillTooMany(nets, i);
    }
  }

  lemma CollectOne<D>(nets: seq<(IpNet, D)>, i: nat)
    requires i < |nets|
    ensures Collect(nets[..i + 1]).Keys == Collect(nets[..i]).Keys + {RouteOf(nets[i].0)}
  {
    assert nets[..i + 1][..i] == nets[..i];
  }

  lemma {:induction false} StillTooMany<D>(nets: seq<(IpNet, D)>, i: nat)
    requires i < |nets| && !Fits(Collect(nets[..i]).Keys + {RouteOf(nets[i].0)})
    ensures !Fits(Collect(nets).Keys)
  {
    CollectOne(nets, i);
    CollectGrows(nets, i + 1);
    if Fits(Collect(nets).Keys) {
      FewerFit(Collect(nets[..i + 1]).Keys, Collect(nets).Keys);
    }
  }

  /** Builds a table from a list: exactly if its networks fit. */
  method TryFromIter<D>(nets: seq<(IpNet, D)>) returns (r: Result<AllowedIPs<D>, TrieError>)
    ensures r.Ok? ==> r.value.Valid() && fresh(r.value) && fresh(r.value.v4) && fresh(r.value.v6)
    ensures r.Ok? ==> r.value.contents == Collect(nets) && r.value.Compact()
    ensures r.Err? ==> r.error == Full
    ensures r.Ok? <==> Fits(Collect(nets).Keys)
  {
    var allowedIps := new AllowedIPs<D>();
    for i := 0 to |nets|
      invariant allowedIps.Valid() && fresh(allowedIps) && fresh(allowedIps.v4) && fresh(allowedIps.v6)
      invariant allowedIps.contents == Collect(nets[..i]) && allowedIps.Compact()
    {
      var inserted := InsertAt(allowedIps, nets, i);
      if !inserted {
        return Err(Full);
      }
    }
    assert nets[..|nets|] == nets;
    allowedIps.CompactFits();
    return Ok(allowedIps);
  }
}
