/** The trie object of one address family: its arena and the operations that change it in place. */
module PrefixTrie {
  import opened Wrappers
  import opened Prefixes
  import opened TrieArena
  import BP = BranchPoints

  // -------------------------------------------------------------------------
  // How many nodes an insertion needs
  // -------------------------------------------------------------------------

  /** The most bits a prefix has in common with any of the first `k` nodes of the arena. */
  ghost function Fork<D>(nodes: seq<Node<D>>, p: Prefix, k: nat): (n: nat)
    requires k <= |nodes|
    ensures n <= |p|
    ensures forall i :: 0 <= i < k ==> CommonLen(p, Key(nodes[i])) <= n
    ensures n > 0 ==> exists i :: 0 <= i < k && CommonLen(p, Key(nodes[i])) == n
  {
    if k == 0 then 0
    else
      var m, last := Fork(nodes, p, k - 1), CommonLen(p, Key(nodes[k - 1]));
      if m >= last then m else last
  }

  ghost predicate HasNode<D>(nodes: seq<Node<D>>, p: Prefix)
  {
    exists i :: 0 <= i < |nodes| && Key(nodes[i]) == p
  }

  /** A prefix needs a node of its own and one where it branches off, unless they exist already. */
  ghost function NodesNeeded<D>(nodes: seq<Node<D>>, p: Prefix): (n: nat)
    ensures n <= 2
  {
    var fork := p[..Fork(nodes, p, |nodes|)];
    (if HasNode(nodes, p) then 0 else 1) + (if fork == p || HasNode(nodes, fork) then 0 else 1)
  }

  lemma {:induction false} NodesNeededIs<D>(nodes: seq<Node<D>>, p: Prefix, fork: nat, i: nat)
    requires i < |nodes| && fork == CommonLen(p, Key(nodes[i]))
    requires forall e :: 0 <= e < |nodes| ==> Key(nodes[e]) != p && CommonLen(p, Key(nodes[e])) <= fork
    ensures NodesNeeded(nodes, p) == if fork == |p| || HasNode(nodes, p[..fork]) then 1 else 2
  {
    assert Fork(nodes, p, |nodes|) == fork;
    assert !HasNode(nodes, p);
    assert p[..fork] == p <==> fork == |p|;
  }

  /** Where `at` has no child towards `p`, no stored prefix shares more with `p` than `at` does. */
  lemma ForkAtDeadEnd<D>(nodes: seq<Node<D>>, width: nat, at: nat, branch: bool, p: Prefix)
    requires Arena(nodes, width) && at < |nodes|
    requires Below(Key(nodes[at]), branch, p) && Next(nodes[at], branch) == None
    ensures NodesNeeded(nodes, p) == 1
  {
    var ka := Key(nodes[at]);
    forall e | 0 <= e < |nodes|
      ensures Key(nodes[e]) != p && CommonLen(p, Key(nodes[e])) <= |ka|
    {
      assert Covers(nodes, at, branch, e);
      CommonBeyond(ka, branch, p, Key(nodes[e]));
    }
    CommonLenUnique(p, ka, |ka|);
    assert p[..|ka|] == ka && HasNode(nodes, ka);
    NodesNeededIs(nodes, p, |ka|, at);
  }

  /** Where `p` leaves the edge from `at` to its child, no stored prefix shares more with `p`. */
  lemma {:induction false} ForkOnEdge<D>(nodes: seq<Node<D>>, width: nat, at: nat, branch: bool, p: Prefix)
    requires Arena(nodes, width) && at < |nodes|
    requires Below(Key(nodes[at]), branch, p) && Next(nodes[at], branch).Some?
    requires Next(nodes[at], branch).value < |nodes|
    requires CommonLen(p, Key(nodes[Next(nodes[at], branch).value])) < |Key(nodes[Next(nodes[at], branch).value])|
    ensures NodesNeeded(nodes, p) == if CommonLen(p, Key(nodes[Next(nodes[at], branch).value])) == |p| then 1 else 2
    ensures |Key(nodes[at])| < CommonLen(p, Key(nodes[Next(nodes[at], branch).value]))
  {
    var ka, c := Key(nodes[at]), Next(nodes[at], branch).value;
    var kc := Key(nodes[c]);
    var fork := CommonLen(p, kc);
    assert LinkOk(nodes, at, branch);
    CommonOfSiblings(ka, branch, p, kc);
    forall e | 0 <= e < |nodes|
      ensures Key(nodes[e]) != p && Key(nodes[e]) != p[..fork] && CommonLen(p, Key(nodes[e])) <= fork
    {
      var ke := Key(nodes[e]);
      assert Covers(nodes, at, branch, e);
      CommonBeyond(ka, branch, p, ke);
      if Below(ka, branch, ke) {
        CommonThroughEdge(p, kc, ke);
      }
      assert Below(ka, branch, p[..fork]);
    }
    assert !HasNode(nodes, p[..fork]);
    NodesNeededIs(nodes, p, fork, c);
  }

  lemma {:induction false} CommonBeyond(ka: Prefix, branch: bool, p: Prefix, q: Prefix)
    requires Below(ka, branch, p)
    ensures Below(ka, branch, q) || CommonLen(p, q) <= |ka|
  {
  }

  lemma {:induction false} CommonOfSiblings(ka: Prefix, branch: bool, p: Prefix, q: Prefix)
    requires Below(ka, branch, p) && Below(ka, branch, q)
    ensures CommonLen(p, q) > |ka|
  {
  }

  lemma {:induction false} CommonThroughEdge(p: Prefix, kc: Prefix, ke: Prefix)
    requires kc <= ke && CommonLen(p, kc) < |kc|
    ensures CommonLen(p, ke) == CommonLen(p, kc)
    ensures ke != p
  {
    var n := CommonLen(p, kc);
    assert ke[..n] == kc[..n];
    CommonLenUnique(p, ke, n);
  }

  // -------------------------------------------------------------------------
  // The cases of an insertion, on arenas as values
  // -------------------------------------------------------------------------

  /** `after` is `before` with `p` mapped to `data`, on as few new nodes as possible. */
  ghost predicate Inserted<D>(before: seq<Node<D>>, after: seq<Node<D>>, width: nat, p: Prefix, data: D)
  {
    && Arena(after, width)
    && Entries(after) == Entries(before)[p := data]
    && |after| == |before| + NodesNeeded(before, p)
    && BP.KeysOf(before) <= BP.KeysOf(after)
  }

  // -------------------------------------------------------------------------
  // A trie that was only inserted into has just the nodes its prefixes need
  // -------------------------------------------------------------------------

  /** One more prefix still leaves room. */
  ghost predicate Room<D>(contents: map<Prefix, D>, p: Prefix)
  {
    |BP.Nodes(contents.Keys + {p})| <= MAX_STORED_INDEX
  }

  ghost predicate Tight<D>(nodes: seq<Node<D>>, prefixes: set<Prefix>)
  {
    BP.KeysOf(nodes) == BP.Nodes(prefixes)
  }

  lemma ForkIsClosest<D>(nodes: seq<Node<D>>, width: nat, p: Prefix) returns (e: Prefix)
    requires Arena(nodes, width)
    ensures BP.Closest(BP.KeysOf(nodes), p, e) && BP.Common(p, e) == p[..Fork(nodes, p, |nodes|)]
  {
    var fork := Fork(nodes, p, |nodes|);
    if fork == 0 {
      e := Key(nodes[0]);
      assert CommonLen(p, e) <= fork;
    } else {
      var i :| 0 <= i < |nodes| && CommonLen(p, Key(nodes[i])) == fork;
      e := Key(nodes[i]);
    }
  }

  /** The nodes an insertion needs are the ones its prefix adds to those of the prefixes stored. */
  lemma {:induction false} NeededIsExact<D>(nodes: seq<Node<D>>, width: nat, prefixes: set<Prefix>, p: Prefix)
    requires Arena(nodes, width) && Tight(nodes, prefixes)
    ensures |nodes| + NodesNeeded(nodes, p) == |BP.Nodes(prefixes + {p})|
    ensures BP.Nodes(prefixes + {p}) == BP.KeysOf(nodes) + {p, p[..Fork(nodes, p, |nodes|)]}
  {
    var e := ForkIsClosest(nodes, width, p);
    BP.OneMore(prefixes, p, e);
    BP.ArenaClosed(nodes, width);
    HasNodeIsKey(nodes, p);
    HasNodeIsKey(nodes, p[..Fork(nodes, p, |nodes|)]);
    BP.TwoMoreExactly(BP.KeysOf(nodes), p, p[..Fork(nodes, p, |nodes|)]);
  }

  lemma HasNodeIsKey<D>(nodes: seq<Node<D>>, p: Prefix)
    ensures HasNode(nodes, p) <==> p in BP.KeysOf(nodes)
  {
  }

  lemma InsertedIsTight<D>(before: seq<Node<D>>, after: seq<Node<D>>, width: nat, p: Prefix, data: D)
    requires Arena(before, width) && Tight(before, Entries(before).Keys) && Inserted(before, after, width, p, data)
    ensures Tight(after, Entries(after).Keys)
  {
    var prefixes := Entries(before).Keys;
    assert Entries(after).Keys == prefixes + {p};
    NeededIsExact(before, width, prefixes, p);
    NewNodesAreKeys(before, after, width, p, data);
    BP.KeyCount(after);
    BP.Smaller(BP.Nodes(prefixes + {p}), BP.KeysOf(after));
  }

  lemma {:induction false} NewNodesAreKeys<D>(before: seq<Node<D>>, after: seq<Node<D>>, width: nat, p: Prefix, data: D)
    requires Arena(before, width) && Inserted(before, after, width, p, data)
    ensures BP.KeysOf(before) + {p, p[..Fork(before, p, |before|)]} <= BP.KeysOf(after)
  {
    var e := ForkIsClosest(before, width, p);
    assert p in Entries(after);
    EntryIsKey(after, p);
    KeysFillUp(BP.KeysOf(before), after, width, p, e);
  }

  lemma EntryIsKey<D>(nodes: seq<Node<D>>, p: Prefix)
    requires p in Entries(nodes)
    ensures p in BP.KeysOf(nodes)
  {
    var i := EntryHolder(nodes, p);
  }

  lemma KeysFillUp<D>(k: set<Prefix>, after: seq<Node<D>>, width: nat, p: Prefix, e: Prefix)
    requires Arena(after, width) && k <= BP.KeysOf(after) && e in k && p in BP.KeysOf(after)
    ensures k + {p, BP.Common(p, e)} <= BP.KeysOf(after)
  {
    BP.ArenaClosed(after, width);
  }

  lemma StaysTight<D>(before: seq<Node<D>>, after: seq<Node<D>>, width: nat, p: Prefix, data: D, ok: bool)
    requires Arena(before, width)
    requires if ok then Inserted(before, after, width, p, data) else after == before
    ensures Tight(before, Entries(before).Keys) ==>
              && Tight(after, Entries(after).Keys)
              && |before| + NodesNeeded(before, p) == |BP.Nodes(Entries(before).Keys + {p})|
  {
    if Tight(before, Entries(before).Keys) {
      NeededIsExact(before, width, Entries(before).Keys, p);
      if ok {
        InsertedIsTight(before, after, width, p, data);
      }
    }
  }

  lemma InsertAtNode<D>(nodes: seq<Node<D>>, width: nat, at: nat, masked: Word, prefixLen: nat, data: D)
    requires Arena(nodes, width) && at < |nodes|
    requires |masked| == width && prefixLen == nodes[at].prefixLen <= width
    requires masked == Mask(masked, prefixLen) && Key(nodes[at]) == masked[..prefixLen]
    ensures nodes[at].prefix == masked
    ensures Inserted(nodes, nodes[at := nodes[at].(data := Some(data))], width, masked[..prefixLen], data)
    ensures nodes[at].data == Payload(nodes, masked[..prefixLen])
    ensures NodesNeeded(nodes, masked[..prefixLen]) == 0
  {
    assert Normalised(nodes[at], width);
    PayloadIs(nodes, width, at);
    ReplaceData(nodes, width, at, data);
    assert BP.KeysOf(nodes) <= BP.KeysOf(nodes[at := nodes[at].(data := Some(data))]) by {
      KeysStay(nodes, nodes[at := nodes[at].(data := Some(data))]);
    }
    var p := masked[..prefixLen];
    NoNodeNeeded(nodes, p);
  }

  lemma InsertLeaf<D>(nodes: seq<Node<D>>, width: nat, at: nat, branch: bool, leaf: Node<D>, data: D)
    requires Arena(nodes, width) && at < |nodes|
    requires Normalised(leaf, width) && leaf == NewNode(leaf.prefix, leaf.prefixLen, Some(data))
    requires Below(Key(nodes[at]), branch, Key(leaf)) && Next(nodes[at], branch) == None
    ensures NodesNeeded(nodes, Key(leaf)) == 1 && Payload(nodes, Key(leaf)) == None
    ensures |nodes| < MAX_STORED_INDEX ==> Inserted(nodes, Attach(nodes, at, branch, leaf), width, Key(leaf), data)
  {
    ForkAtDeadEnd(nodes, width, at, branch, Key(leaf));
    NothingStoredAt(nodes, width, Key(leaf));
    if |nodes| < MAX_STORED_INDEX {
      AttachEntries(nodes, width, at, branch, leaf);
      AttachKeepsKeys(nodes, at, branch, leaf);
    }
  }

  lemma KeysStay<D>(before: seq<Node<D>>, after: seq<Node<D>>)
    requires |before| <= |after| && forall i :: 0 <= i < |before| ==> Key(after[i]) == Key(before[i])
    ensures BP.KeysOf(before) <= BP.KeysOf(after)
  {
  }

  lemma AttachKeepsKeys<D>(nodes: seq<Node<D>>, at: nat, branch: bool, node: Node<D>)
    requires at < |nodes| < MAX_STORED_INDEX
    ensures BP.KeysOf(nodes) <= BP.KeysOf(Attach(nodes, at, branch, node))
  {
    KeysStay(nodes, Attach(nodes, at, branch, node));
  }

  lemma NoNodeNeeded<D>(nodes: seq<Node<D>>, p: Prefix)
    requires HasNode(nodes, p)
    ensures NodesNeeded(nodes, p) == 0
  {
  }

  lemma NothingStoredAt<D>(nodes: seq<Node<D>>, width: nat, p: Prefix)
    requires Arena(nodes, width) && NodesNeeded(nodes, p) > 0
    ensures Payload(nodes, p) == None
  {
  }

  /** The intermediate node of a split may be hung on the split edge, and the new leaf below it. */
  lemma SplitAttachable<D>(nodes: seq<Node<D>>, width: nat, at: nat, branch: bool, childIdx: nat, common: nat,
                           masked: Word, prefixLen: nat, intermediate: Node<D>)
    requires Arena(nodes, width) && at < |nodes| && childIdx < |nodes| && childIdx < MAX_STORED_INDEX
    requires |masked| == width && prefixLen <= width && common <= prefixLen
    requires Below(Key(nodes[at]), branch, masked[..prefixLen]) && Next(nodes[at], branch) == Some(childIdx)
    requires common == CommonLen(masked[..prefixLen], Key(nodes[childIdx])) < nodes[childIdx].prefixLen
    requires common < |nodes[childIdx].prefix|
    requires intermediate == NewNode(Mask(masked, common), common, intermediate.data)
                               .WithChild(nodes[childIdx].prefix[common], childIdx + 1)
    ensures Attachable(nodes, width, at, branch, intermediate)
    ensures Key(intermediate) == masked[..common]
    ensures common < prefixLen ==>
              Below(Key(intermediate), masked[common], masked[..prefixLen]) && Next(intermediate, masked[common]) == None
  {
    var p, kc := masked[..prefixLen], Key(nodes[childIdx]);
    assert LinkOk(nodes, at, branch) && Normalised(nodes[childIdx], width);
    CommonOfSiblings(Key(nodes[at]), branch, p, kc);
    MaskedTwice(masked, common, prefixLen);
    assert masked[..common] == kc[..common] && kc[common] == nodes[childIdx].prefix[common];
    assert Key(intermediate) == masked[..common];
  }

  lemma MaskedTwice(w: Word, n: nat, m: nat)
    requires n <= m <= |w|
    ensures |Mask(w, n)| == |w| && Mask(w, n)[..n] == w[..n] == w[..m][..n] && Mask(Mask(w, n), n) == Mask(w, n)
    ensures n < m ==> w[..m][n] == w[n]
  {
  }

  lemma InsertAbove<D>(nodes: seq<Node<D>>, width: nat, at: nat, branch: bool, childIdx: nat, common: nat,
                       masked: Word, prefixLen: nat, intermediate: Node<D>, leaf: Node<D>, data: D)
    requires Arena(nodes, width) && at < |nodes| && |nodes| + 1 < MAX_STORED_INDEX && childIdx < |nodes|
    requires |masked| == width && common < prefixLen <= width && masked == Mask(masked, prefixLen)
    requires Below(Key(nodes[at]), branch, masked[..prefixLen]) && Next(nodes[at], branch) == Some(childIdx)
    requires common == CommonLen(masked[..prefixLen], Key(nodes[childIdx])) < nodes[childIdx].prefixLen
    requires common < |nodes[childIdx].prefix|
    requires intermediate == NewNode(Mask(masked, common), common, None)
                               .WithChild(nodes[childIdx].prefix[common], childIdx + 1)
    requires leaf == NewNode(masked, prefixLen, Some(data))
    requires NodesNeeded(nodes, masked[..prefixLen]) == 2
    ensures Inserted(nodes, Attach(Attach(nodes, at, branch, intermediate), |nodes|, masked[common], leaf), width,
                     masked[..prefixLen], data)
  {
    SplitAttachable(nodes, width, at, branch, childIdx, common, masked, prefixLen, intermediate);
    AttachEntries(nodes, width, at, branch, intermediate);
    var half := Attach(nodes, at, branch, intermediate);
    assert half[|nodes|] == intermediate && Normalised(leaf, width);
    AttachEntries(half, width, |nodes|, masked[common], leaf);
    AttachKeepsKeys(nodes, at, branch, intermediate);
    AttachKeepsKeys(half, |nodes|, masked[common], leaf);
  }

  lemma PushThenLink<D>(nodes: seq<Node<D>>, at: nat, branch: bool, node: Node<D>)
    requires at < |nodes| < MAX_STORED_INDEX
    ensures (nodes + [node])[at := (nodes + [node])[at].WithChild(branch, |nodes| + 1)] == Attach(nodes, at, branch, node)
  {
  }

  lemma PushTwoThenLink<D>(nodes: seq<Node<D>>, at: nat, branch: bool, mid: Node<D>, newBranch: bool, leaf: Node<D>)
    requires at < |nodes| && |nodes| + 1 < MAX_STORED_INDEX
    ensures (nodes + [mid.WithChild(newBranch, |nodes| + 2)] + [leaf])
            [at := (nodes + [mid.WithChild(newBranch, |nodes| + 2)] + [leaf])[at].WithChild(branch, |nodes| + 1)]
            == Attach(Attach(nodes, at, branch, mid), |nodes|, newBranch, leaf)
  {
  }

  // -------------------------------------------------------------------------
  // The steps of a lookup
  // -------------------------------------------------------------------------

  /** One payload-bearing node as an iterator yields it. */
  datatype Item<+D> = Item(prefix: Word, prefixLen: nat, data: D)
  {
    function Bits(): Prefix
    {
      if prefixLen <= |prefix| then prefix[..prefixLen] else prefix
    }
  }

  ghost predicate ItemOf<D>(n: Node<D>, item: Item<D>)
  {
    n.data == Some(item.data) && n.prefix == item.prefix && n.prefixLen == item.prefixLen
  }

  lemma EntryHolder<D>(nodes: seq<Node<D>>, p: Prefix) returns (i: nat)
    requires p in Entries(nodes)
    ensures i < |nodes| && nodes[i].data.Some? && Key(nodes[i]) == p
  {
    i :| 0 <= i < |nodes| && Stores(nodes, i, p);
  }

  /** Masking a key to a node's length and comparing words decides whether the node is a prefix of it. */
  lemma MaskedMatch<D>(n: Node<D>, width: nat, key: Word)
    requires |key| == width && Normalised(n, width)
    ensures Mask(key, n.prefixLen) == n.prefix <==> Key(n) <= key
  {
  }

  /** An entry that lies below `at` on the way to `key` also lies at or below the child there. */
  lemma EntryBelow<D>(nodes: seq<Node<D>>, width: nat, at: nat, key: Word, n: nat)
    requires Arena(nodes, width) && at < |nodes| && |key| == width
    requires Key(nodes[at]) < key && |Key(nodes[at])| < n <= width && key[..n] in Entries(nodes)
    ensures Next(nodes[at], key[|Key(nodes[at])|]).Some?
    ensures Next(nodes[at], key[|Key(nodes[at])|]).value < |nodes|
    ensures Key(nodes[Next(nodes[at], key[|Key(nodes[at])|]).value]) <= key[..n]
  {
    var e := EntryHolder(nodes, key[..n]);
    var ka := Key(nodes[at]);
    assert ka == key[..|ka|] == key[..n][..|ka|];
    assert Covers(nodes, at, key[|ka|], e);
  }

  /** Without a matching child, no longer prefix of `key` is stored. */
  lemma {:induction false} DeadEnd<D>(nodes: seq<Node<D>>, width: nat, at: nat, key: Word)
    requires Arena(nodes, width) && at < |nodes| && |key| == width
    requires Key(nodes[at]) < key
    requires Next(nodes[at], key[|Key(nodes[at])|]).Some? ==>
               Next(nodes[at], key[|Key(nodes[at])|]).value < |nodes| &&
               !(Key(nodes[Next(nodes[at], key[|Key(nodes[at])|]).value]) <= key)
    ensures LongestMatch(Entries(nodes), key, width) == LongestMatch(Entries(nodes), key, |Key(nodes[at])|)
  {
    forall n | |Key(nodes[at])| < n <= width
      ensures key[..n] !in Entries(nodes)
    {
      if key[..n] in Entries(nodes) {
        EntryBelow(nodes, width, at, key, n);
      }
    }
    LongestMatchSkips(Entries(nodes), key, |Key(nodes[at])|, width);
  }

  /** Descending to a matching child passes over no stored prefix of `key`. */
  lemma {:induction false} StepDown<D>(nodes: seq<Node<D>>, width: nat, at: nat, child: nat, key: Word)
    requires Arena(nodes, width) && at < |nodes| && child < |nodes| && |key| == width
    requires Key(nodes[at]) < Key(nodes[child]) <= key
    requires Next(nodes[at], key[|Key(nodes[at])|]) == Some(child)
    ensures LongestMatch(Entries(nodes), key, |Key(nodes[child])|) ==
            if nodes[child].data.Some? then nodes[child].data
            else LongestMatch(Entries(nodes), key, |Key(nodes[at])|)
  {
    var m := Entries(nodes);
    var ka, kc := |Key(nodes[at])|, |Key(nodes[child])|;
    assert (key[..kc] in m <==> nodes[child].data.Some?) && (key[..kc] in m ==> nodes[child].data == Some(m[key[..kc]])) by {
      PayloadIs(nodes, width, child);
      assert key[..kc] == Key(nodes[child]);
    }
    forall n | ka < n < kc
      ensures key[..n] !in m
    {
      NothingBetween(nodes, width, at, child, key, n);
    }
    LongestMatchSkips(m, key, ka, kc - 1);
  }

  lemma NothingBetween<D>(nodes: seq<Node<D>>, width: nat, at: nat, child: nat, key: Word, n: nat)
    requires Arena(nodes, width) && at < |nodes| && child < |nodes| && |key| == width
    requires Key(nodes[at]) < Key(nodes[child]) <= key
    requires Next(nodes[at], key[|Key(nodes[at])|]) == Some(child)
    requires |Key(nodes[at])| < n < |Key(nodes[child])|
    ensures key[..n] !in Entries(nodes)
  {
    if key[..n] in Entries(nodes) {
      EntryBelow(nodes, width, at, key, n);
    }
  }

  function Pruned<D>(n: Node<D>, selects: D -> bool): Node<D>
  {
    if n.data.Some? && selects(n.data.value) then n.(data := None) else n
  }

  lemma PrunedPayload<D>(before: seq<Node<D>>, after: seq<Node<D>>, width: nat, selects: D -> bool, p: Prefix)
    requires Arena(before, width) && Arena(after, width) && |after| == |before|
    requires forall k :: 0 <= k < |before| ==> after[k] == Pruned(before[k], selects)
    ensures Payload(after, p) ==
            if Payload(before, p).Some? && selects(Payload(before, p).value) then None else Payload(before, p)
  {
    if i :| 0 <= i < |before| && Key(before[i]) == p {
      PayloadIs(before, width, i);
      PayloadIs(after, width, i);
    } else {
      assert forall i :: 0 <= i < |before| ==> !Stores(before, i, p) && !Stores(after, i, p);
    }
  }

  lemma PrunedEntries<D>(before: seq<Node<D>>, after: seq<Node<D>>, width: nat, selects: D -> bool)
    requires Arena(before, width) && Arena(after, width) && |after| == |before|
    requires forall k :: 0 <= k < |before| ==> after[k] == Pruned(before[k], selects)
    ensures Entries(after) == map p | p in Entries(before) && !selects(Entries(before)[p]) :: Entries(before)[p]
  {
    forall p
      ensures Payload(after, p) ==
              if Payload(before, p).Some? && selects(Payload(before, p).value) then None else Payload(before, p)
    {
      PrunedPayload(before, after, width, selects, p);
    }
  }

  /** `items` lists the payload-bearing nodes among the first `n`, `source[k]` being the node of item `k`. */
  ghost predicate ListsNodes<D>(nodes: seq<Node<D>>, n: nat, items: seq<Item<D>>, source: seq<nat>)
    requires n <= |nodes|
  {
    && |source| == |items|
    && (forall k :: 0 <= k < |items| ==> source[k] < n && ItemOf(nodes[source[k]], items[k]))
    && (forall j, k :: 0 <= j < k < |items| ==> source[j] < source[k])
    && (forall i :: 0 <= i < n && nodes[i].data.Some? ==> i in source)
  }

  ghost predicate ListsEntries<D>(m: map<Prefix, D>, width: nat, items: seq<Item<D>>)
  {
    && (forall k :: 0 <= k < |items| ==> |items[k].prefix| == width && items[k].prefixLen <= width)
    && (forall k :: 0 <= k < |items| ==> items[k].Bits() in m && m[items[k].Bits()] == items[k].data)
    && (forall p :: p in m ==> exists k :: 0 <= k < |items| && items[k].Bits() == p)
    && (forall j, k :: 0 <= j < k < |items| ==> items[j].Bits() != items[k].Bits())
  }

  lemma NodesListEntries<D>(nodes: seq<Node<D>>, width: nat, items: seq<Item<D>>, source: seq<nat>)
    requires Arena(nodes, width) && ListsNodes(nodes, |nodes|, items, source)
    ensures ListsEntries(Entries(nodes), width, items)
  {
    forall k | 0 <= k < |items|
      ensures |items[k].prefix| == width && items[k].prefixLen <= width && items[k].Bits() == Key(nodes[source[k]])
      ensures items[k].Bits() in Entries(nodes) && Entries(nodes)[items[k].Bits()] == items[k].data
    {
      assert Normalised(nodes[source[k]], width) && ItemOf(nodes[source[k]], items[k]);
      PayloadIs(nodes, width, source[k]);
    }
    forall p | p in Entries(nodes)
      ensures exists k :: 0 <= k < |items| && items[k].Bits() == p
    {
      var n := EntryHolder(nodes, p);
      var k :| 0 <= k < |source| && source[k] == n;
      assert items[k].Bits() == p;
    }
    forall j, k | 0 <= j < k < |items|
      ensures items[j].Bits() != items[k].Bits()
    {
      assert Distinct(nodes, source[j], source[k]);
    }
  }

  /** Walks the bits of `key` from the root and remembers the last payload it passes. */
  method FindIn<D>(nodes: seq<Node<D>>, width: nat, key: Word) returns (best: Option<D>)
    requires Arena(nodes, width) && |key| == width
    ensures best == LongestMatch(Entries(nodes), key, width)
  {
    var at: nat := 0;
    best := nodes[at].data;
    PayloadIs(nodes, width, at);
    assert key[..0] == Key(nodes[0]);
    while nodes[at].prefixLen != width
      invariant at < |nodes| && nodes[at].prefixLen <= width
      invariant Key(nodes[at]) <= key
      invariant best == LongestMatch(Entries(nodes), key, nodes[at].prefixLen)
      decreases width - nodes[at].prefixLen
    {
      assert Normalised(nodes[at], width);
      var branch := key[nodes[at].prefixLen];
      if nodes[at].Child(branch).None? {
        DeadEnd(nodes, width, at, key);
        return;
      }
      var childIdx := DecodeNodeIndex(nodes[at].Child(branch).value);
      assert LinkOk(nodes, at, branch);
      assert Normalised(nodes[childIdx], width);
      MaskedMatch(nodes[childIdx], width, key);
      if Mask(key, nodes[childIdx].prefixLen) != nodes[childIdx].prefix {
        DeadEnd(nodes, width, at, key);
        return;
      }
      StepDown(nodes, width, at, childIdx, key);
      at := childIdx;
      if nodes[at].data.Some? {
        best := nodes[at].data;
      }
    }
  }

  method IterOver<D>(nodes: seq<Node<D>>, width: nat) returns (items: seq<Item<D>>)
    requires Arena(nodes, width)
    ensures ListsEntries(Entries(nodes), width, items)
  {
    items := [];
    ghost var source: seq<nat> := [];
    for i := 0 to |nodes|
      invariant ListsNodes(nodes, i, items, source)
    {
      if nodes[i].data.Some? {
        items := items + [Item(nodes[i].prefix, nodes[i].prefixLen, nodes[i].data.value)];
        source := source + [i];
      }
    }
    NodesListEntries(nodes, width, items, source);
  }

  // -------------------------------------------------------------------------
  // The trie
  // -------------------------------------------------------------------------

  class Trie<D> {
    /** Width of an address of this family: 32 or 128. */
    const width: nat

    /** Root, structural split nodes and payload nodes; child links are indices into it. */
    var nodes: seq<Node<D>>

    /** The finite map the trie stands for. */
    ghost var contents: map<Prefix, D>

    ghost predicate Valid()
      reads this
    {
      Arena(nodes, width) && |nodes| <= MAX_STORED_INDEX && contents == Entries(nodes)
    }

    /** It has just the nodes its prefixes need, as long as nothing has been removed. */
    ghost predicate Compact()
      reads this
    {
      Tight(nodes, contents.Keys)
    }

    constructor (width: nat)
      ensures Valid() && this.width == width
      ensures contents == map[] && |nodes| == 1 && Compact()
    {
      this.width := width;
      nodes := [NewNode(Mask(seq(width, _ => false), 0), 0, None)];
      contents := map[];
      new;
      assert Mask(nodes[0].prefix, 0) == nodes[0].prefix;
      assert BP.KeysOf(nodes) == {Key(nodes[0])} == {[]} == BP.Nodes({});
      assert contents.Keys == {};
    }

    /** Drops every entry and structural node and recreates the root. */
    method Clear()
      requires Valid()
      modifies this
      ensures Valid() && contents == map[] && |nodes| == 1 && Compact()
    {
      nodes := [];
      nodes := nodes + [NewNode(Mask(seq(width, _ => false), 0), 0, None)];
      contents := map[];
      assert Mask(nodes[0].prefix, 0) == nodes[0].prefix;
      assert BP.KeysOf(nodes) == {Key(nodes[0])} == {[]} == BP.Nodes({});
      assert contents.Keys == {};
    }

    /**
     Stores `data` for the first `prefixLen` bits of `prefix`: changes exactly that entry, returns
     its former payload, and reports `Full` without any change exactly when the 16-bit links cannot
     address the nodes that are missing.
     */
    method Insert(prefix: Word, prefixLen: nat, data: D) returns (r: Result<Option<D>, TrieError>)
      requires Valid() && |prefix| == width && prefixLen <= width
      modifies this
      ensures Valid()
      ensures r.Ok? ==> contents == old(contents)[prefix[..prefixLen] := data]
      ensures r.Ok? ==> r.value == if prefix[..prefixLen] in old(contents) then Some(old(contents)[prefix[..prefixLen]]) else None
      ensures r.Ok? ==> |nodes| == |old(nodes)| + NodesNeeded(old(nodes), prefix[..prefixLen])
      ensures r.Err? ==> r.error == Full && nodes == old(nodes) && contents == old(contents)
      ensures r.Err? <==> |old(nodes)| + NodesNeeded(old(nodes), prefix[..prefixLen]) > MAX_STORED_INDEX
      ensures old(Compact()) ==>
                Compact() && (r.Ok? <==> Room(old(contents), prefix[..prefixLen]))
    {
      var masked := Mask(prefix, prefixLen);
      ghost var p := prefix[..prefixLen];
      assert masked[..prefixLen] == p && Mask(masked, prefixLen) == masked;
      var at: nat := 0;
      while nodes[at].prefixLen != prefixLen
        invariant at < |nodes| && Key(nodes[at]) <= p
        modifies {}
        decreases width - nodes[at].prefixLen
      {
        assert Normalised(nodes[at], width);
        var branch := masked[nodes[at].prefixLen];
        if nodes[at].Child(branch).None? {
          break;
        }
        var childIdx := DecodeNodeIndex(nodes[at].Child(branch).value);
        assert LinkOk(nodes, at, branch);
        assert Normalised(nodes[childIdx], width);
        var common := CommonPrefixLen(masked, prefixLen, nodes[childIdx].prefix, nodes[childIdx].prefixLen);
        if common != nodes[childIdx].prefixLen {
          break;
        }
        assert Key(nodes[childIdx]) == p[..common];
        at := childIdx;
      }
      assert Normalised(nodes[at], width);
      if nodes[at].prefixLen == prefixLen {
        r := ReplaceAt(at, masked, prefixLen, data);
      } else if nodes[at].Child(masked[nodes[at].prefixLen]).None? {
        r := AppendLeaf(at, masked[nodes[at].prefixLen], masked, prefixLen, data);
      } else {
        var branch := masked[nodes[at].prefixLen];
        r := Split(at, branch, DecodeNodeIndex(nodes[at].Child(branch).value), masked, prefixLen, data);
      }
      StaysTight(old(nodes), nodes, width, p, data, r.Ok?);
    }

    /** The prefix already has a node: its payload is replaced. */
    method ReplaceAt(at: nat, masked: Word, prefixLen: nat, data: D) returns (r: Result<Option<D>, TrieError>)
      requires Valid() && at < |nodes|
      requires |masked| == width && prefixLen == nodes[at].prefixLen <= width
      requires masked == Mask(masked, prefixLen) && Key(nodes[at]) == masked[..prefixLen]
      modifies this
      ensures Valid() && r.Ok?
      ensures Inserted(old(nodes), nodes, width, masked[..prefixLen], data)
      ensures contents == old(contents)[masked[..prefixLen] := data]
      ensures r.value == old(Payload(nodes, masked[..prefixLen]))
      ensures NodesNeeded(old(nodes), masked[..prefixLen]) == 0
    {
      InsertAtNode(nodes, width, at, masked, prefixLen, data);
      var replaced := nodes[at].data;
      nodes := nodes[at := nodes[at].(prefix := masked)];
      assert nodes == old(nodes);
      nodes := nodes[at := nodes[at].(data := Some(data))];
      assert nodes == old(nodes)[at := old(nodes)[at].(data := Some(data))];
      contents := Entries(nodes);
      return Ok(replaced);
    }

    /** The prefix leaves the trie at `at`: a new leaf is hung there. */
    method AppendLeaf(at: nat, branch: bool, masked: Word, prefixLen: nat, data: D)
      returns (r: Result<Option<D>, TrieError>)
      requires Valid() && at < |nodes|
      requires |masked| == width && prefixLen <= width && masked == Mask(masked, prefixLen)
      requires Below(Key(nodes[at]), branch, masked[..prefixLen]) && Next(nodes[at], branch) == None
      modifies this
      ensures Valid()
      ensures r.Ok? ==> Inserted(old(nodes), nodes, width, masked[..prefixLen], data) && r.value == None
      ensures r.Ok? ==> contents == old(contents)[masked[..prefixLen] := data]
      ensures old(Payload(nodes, masked[..prefixLen])) == None
      ensures r.Err? ==> r.error == Full && nodes == old(nodes) && contents == old(contents)
      ensures r.Err? <==> |old(nodes)| + NodesNeeded(old(nodes), masked[..prefixLen]) > MAX_STORED_INDEX
    {
      var newIdx := EncodeNodeIndex(|nodes|);
      var leaf := NewNode(masked, prefixLen, Some(data));
      InsertLeaf(nodes, width, at, branch, leaf, data);
      if newIdx.Err? {
        return Err(newIdx.error);
      }
      PushAndLink(at, branch, newIdx.value, leaf);
      contents := Entries(nodes);
      return Ok(None);
    }

    /** Pushes one node and then links it below `at`. */
    method PushAndLink(at: nat, branch: bool, link: NodeIndex, node: Node<D>)
      requires at < |nodes| < MAX_STORED_INDEX && link == |nodes| + 1
      modifies this`nodes
      ensures nodes == Attach(old(nodes), at, branch, node)
    {
      PushThenLink(nodes, at, branch, node);
      nodes := nodes + [node];
      nodes := nodes[at := nodes[at].WithChild(branch, link)];
    }

    /** Pushes an intermediate node and the new leaf below it, and then links the intermediate node below `at`. */
    method PushBothAndLink(at: nat, branch: bool, link: NodeIndex, intermediate: Node<D>,
                           newBranch: bool, leafLink: NodeIndex, leaf: Node<D>)
      requires at < |nodes| && |nodes| + 1 < MAX_STORED_INDEX && link == |nodes| + 1 && leafLink == |nodes| + 2
      modifies this`nodes
      ensures nodes == Attach(Attach(old(nodes), at, branch, intermediate), |old(nodes)|, newBranch, leaf)
    {
      PushTwoThenLink(nodes, at, branch, intermediate, newBranch, leaf);
      nodes := nodes + [intermediate.WithChild(newBranch, leafLink)];
      nodes := nodes + [leaf];
      nodes := nodes[at := nodes[at].WithChild(branch, link)];
    }

    /** Splits the edge from `at` to `childIdx` where the new prefix leaves it. */
    method Split(at: nat, branch: bool, childIdx: nat, masked: Word, prefixLen: nat, data: D)
      returns (r: Result<Option<D>, TrieError>)
      requires Valid() && at < |nodes| && childIdx < |nodes|
      requires |masked| == width && prefixLen <= width && masked == Mask(masked, prefixLen)
      requires Below(Key(nodes[at]), branch, masked[..prefixLen])
      requires Next(nodes[at], branch) == Some(childIdx)
      requires CommonLen(masked[..prefixLen], Key(nodes[childIdx])) < nodes[childIdx].prefixLen
      modifies this
      ensures Valid()
      ensures r.Ok? ==> Inserted(old(nodes), nodes, width, masked[..prefixLen], data) && r.value == None
      ensures r.Ok? ==> contents == old(contents)[masked[..prefixLen] := data]
      ensures old(Payload(nodes, masked[..prefixLen])) == None
      ensures r.Err? ==> r.error == Full && nodes == old(nodes) && contents == old(contents)
      ensures r.Err? <==> |old(nodes)| + NodesNeeded(old(nodes), masked[..prefixLen]) > MAX_STORED_INDEX
    {
      assert Normalised(nodes[childIdx], width);
      var common := CommonPrefixLen(masked, prefixLen, nodes[childIdx].prefix, nodes[childIdx].prefixLen);
      ForkOnEdge(nodes, width, at, branch, masked[..prefixLen]);
      NothingStoredAt(nodes, width, masked[..prefixLen]);
      var encoded := EncodeNodeIndex(|nodes|);
      if encoded.Err? {
        return Err(encoded.error);
      }
      var encodedChild := EncodeNodeIndex(childIdx);
      if encodedChild.Err? {
        return Err(encodedChild.error);
      }
      var oldBranch := nodes[childIdx].prefix[common];
      var intermediate := NewNode(Mask(masked, common), common, None).WithChild(oldBranch, encodedChild.value);
      if common == prefixLen {
        SplitAtPrefix(at, branch, childIdx, masked, prefixLen, intermediate.(data := Some(data)), data);
        return Ok(None);
      }
      var encodedLeaf := EncodeNodeIndex(|nodes| + 1);
      if encodedLeaf.Err? {
        return Err(encodedLeaf.error);
      }
      SplitAbove(at, branch, childIdx, common, masked, prefixLen, intermediate, encodedLeaf.value, data);
      return Ok(None);
    }

    /** The new prefix ends on the edge: the intermediate node carries its payload. */
    method SplitAtPrefix(at: nat, branch: bool, childIdx: nat, masked: Word, prefixLen: nat,
                         intermediate: Node<D>, data: D)
      requires Valid() && at < |nodes| < MAX_STORED_INDEX && childIdx < |nodes| && childIdx < MAX_STORED_INDEX
      requires |masked| == width && prefixLen <= width && masked == Mask(masked, prefixLen)
      requires Below(Key(nodes[at]), branch, masked[..prefixLen]) && Next(nodes[at], branch) == Some(childIdx)
      requires prefixLen == CommonLen(masked[..prefixLen], Key(nodes[childIdx])) < nodes[childIdx].prefixLen
      requires prefixLen < |nodes[childIdx].prefix|
      requires intermediate == NewNode(Mask(masked, prefixLen), prefixLen, Some(data))
                                 .WithChild(nodes[childIdx].prefix[prefixLen], childIdx + 1)
      requires NodesNeeded(nodes, masked[..prefixLen]) == 1
      modifies this
      ensures Valid() && Inserted(old(nodes), nodes, width, masked[..prefixLen], data)
      ensures contents == old(contents)[masked[..prefixLen] := data]
    {
      SplitAttachable(nodes, width, at, branch, childIdx, prefixLen, masked, prefixLen, intermediate);
      AttachEntries(nodes, width, at, branch, intermediate);
      AttachKeepsKeys(nodes, at, branch, intermediate);
      assert Inserted(nodes, Attach(nodes, at, branch, intermediate), width, masked[..prefixLen], data);
      PushAndLink(at, branch, |nodes| + 1, intermediate);
      contents := Entries(nodes);
    }

    /** The new prefix leaves the edge: the intermediate node gets the old child and a new leaf. */
    method SplitAbove(at: nat, branch: bool, childIdx: nat, common: nat, masked: Word, prefixLen: nat,
                      intermediate: Node<D>, leafLink: NodeIndex, data: D)
      requires Valid() && at < |nodes| && |nodes| + 1 < MAX_STORED_INDEX
      requires childIdx < |nodes| && leafLink == |nodes| + 2
      requires |masked| == width && common < prefixLen <= width && masked == Mask(masked, prefixLen)
      requires Below(Key(nodes[at]), branch, masked[..prefixLen]) && Next(nodes[at], branch) == Some(childIdx)
      requires common == CommonLen(masked[..prefixLen], Key(nodes[childIdx])) < nodes[childIdx].prefixLen
      requires common < |nodes[childIdx].prefix|
      requires intermediate == NewNode(Mask(masked, common), common, None)
                                 .WithChild(nodes[childIdx].prefix[common], childIdx + 1)
      requires NodesNeeded(nodes, masked[..prefixLen]) == 2
      modifies this
      ensures Valid() && Inserted(old(nodes), nodes, width, masked[..prefixLen], data)
      ensures contents == old(contents)[masked[..prefixLen] := data]
    {
      var leaf := NewNode(masked, prefixLen, Some(data));
      InsertAbove(nodes, width, at, branch, childIdx, common, masked, prefixLen, intermediate, leaf, data);
      PushBothAndLink(at, branch, |nodes| + 1, intermediate, masked[common], leafLink, leaf);
      contents := Entries(nodes);
    }

    /** The payload of the most specific stored prefix that contains `key`. */
    method Find(key: Word) returns (best: Option<D>)
      requires Valid() && |key| == width
      ensures best == LongestMatch(contents, key, width)
    {
      best := FindIn(nodes, width, key);
    }

    /** Clears the payload of every entry that satisfies `selects`; no node is unlinked. */
    method Remove(selects: D -> bool)
      requires Valid()
      modifies this
      ensures Valid() && |nodes| == |old(nodes)|
      ensures contents == map p | p in old(contents) && !selects(old(contents)[p]) :: old(contents)[p]
    {
      var i := 0;
      while i < |nodes|
        invariant i <= |nodes| == |old(nodes)|
        invariant forall k :: i <= k < |nodes| ==> nodes[k] == old(nodes)[k]
        invariant forall k :: 0 <= k < i ==> nodes[k] == Pruned(old(nodes)[k], selects)
      {
        var remove := match nodes[i].data
          case Some(data) => selects(data)
          case None => false;
        if remove {
          nodes := nodes[i := nodes[i].(data := None)];
        }
        i := i + 1;
      }
      contents := Entries(nodes);
      SameShape(old(nodes), nodes, width);
      PrunedEntries(old(nodes), nodes, width, selects);
    }

    /** Whether some stored prefix and `prefix/prefixLen` contain a common address. */
    method Overlaps(prefix: Word, prefixLen: nat) returns (overlaps: bool)
      requires Valid() && |prefix| == width && prefixLen <= width
      ensures overlaps <==> exists q :: q in contents && ShareAddress(prefix[..prefixLen], q, width)
    {
      var masked := Mask(prefix, prefixLen);
      assert masked[..prefixLen] == prefix[..prefixLen];
      ghost var p := prefix[..prefixLen];
      for i := 0 to |nodes|
        invariant forall k :: 0 <= k < i && nodes[k].data.Some? ==> !ShareAddress(p, Key(nodes[k]), width)
      {
        assert Normalised(nodes[i], width);
        if nodes[i].data.Some? {
          var meet := PrefixesOverlap(masked, prefixLen, nodes[i].prefix, nodes[i].prefixLen);
          if meet {
            PayloadIs(nodes, width, i);
            assert Key(nodes[i]) in contents;
            return true;
          }
        }
      }
      forall q | q in contents
        ensures !ShareAddress(p, q, width)
      {
        var k := EntryHolder(nodes, q);
      }
      return false;
    }

    /** Every payload-bearing node in arena order: each entry of the map exactly once. */
    method Iter() returns (items: seq<Item<D>>)
      requires Valid()
      ensures ListsEntries(contents, width, items)
    {
      items := IterOver(nodes, width);
    }
  }
}
