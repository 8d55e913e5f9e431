/**
 The arena of the path-compressed binary trie, as a value: its shape, the finite map of
 prefixes it stands for, and the three structural edits an insertion is made of.
 */
module TrieArena {
  import opened Wrappers
  import opened Prefixes

  const MAX_STORED_INDEX: nat := 0xffff

  /** A non-zero 16-bit child link; arena index `i` is stored as `i + 1`. */
  type NodeIndex = x: nat | 1 <= x <= MAX_STORED_INDEX witness 1

  datatype TrieError = InvalidCidr | Full

  function EncodeNodeIndex(index: nat): (r: Result<NodeIndex, TrieError>)
    ensures r.Ok? <==> index + 1 <= MAX_STORED_INDEX
    ensures r.Ok? ==> DecodeNodeIndex(r.value) == index
    ensures r.Err? ==> r.error == Full
  {
    if index + 1 <= MAX_STORED_INDEX then Ok(index + 1) else Err(Full)
  }

  function DecodeNodeIndex(stored: NodeIndex): nat
  {
    stored - 1
  }

  datatype Node<+D> = Node(prefix: Word, prefixLen: nat,
                           zero: Option<NodeIndex>, one: Option<NodeIndex>, data: Option<D>)
  {
    function Child(branch: bool): Option<NodeIndex>
    {
      if branch then one else zero
    }

    function WithChild(branch: bool, link: NodeIndex): (r: Node<D>)
    {
      if branch then this.(one := Some(link)) else this.(zero := Some(link))
    }
  }

  function NewNode<D>(prefix: Word, prefixLen: nat, data: Option<D>): Node<D>
  {
    Node(prefix, prefixLen, None, None, data)
  }

  // -------------------------------------------------------------------------
  // Shape
  // -------------------------------------------------------------------------

  /** The significant bits of a node. */
  ghost function Key<D>(n: Node<D>): Prefix
  {
    if n.prefixLen <= |n.prefix| then n.prefix[..n.prefixLen] else n.prefix
  }

  /** The arena index of a child. */
  ghost function Next<D>(n: Node<D>, branch: bool): Option<nat>
  {
    if n.Child(branch).Some? then Some(DecodeNodeIndex(n.Child(branch).value)) else None
  }

  /** A node's prefix is normalised: host bits are zero. */
  ghost predicate Normalised<D>(n: Node<D>, width: nat)
  {
    |n.prefix| == width && n.prefixLen <= width && n.prefix == Mask(n.prefix, n.prefixLen)
  }

  /** `p` continues below `k` on the given branch. */
  ghost predicate Below(k: Prefix, branch: bool, p: Prefix)
  {
    k < p && p[|k|] == branch
  }

  /** Every child link leads to a strictly longer prefix that extends the parent on that branch. */
  ghost predicate LinkOk<D>(nodes: seq<Node<D>>, i: nat, branch: bool)
    requires i < |nodes|
  {
    Next(nodes[i], branch).Some? ==>
      Next(nodes[i], branch).value < |nodes| &&
      Below(Key(nodes[i]), branch, Key(nodes[Next(nodes[i], branch).value]))
  }

  /**
   If node `e` lies below node `i` on a branch, then `i` has a child there and `e` lies at or
   below that child.
   */
  ghost predicate Covers<D>(nodes: seq<Node<D>>, i: nat, branch: bool, e: nat)
    requires i < |nodes| && e < |nodes|
  {
    Below(Key(nodes[i]), branch, Key(nodes[e])) ==>
      Next(nodes[i], branch).Some? && Next(nodes[i], branch).value < |nodes| &&
      Key(nodes[Next(nodes[i], branch).value]) <= Key(nodes[e])
  }

  /** Two nodes never carry the same prefix. */
  ghost predicate Distinct<D>(nodes: seq<Node<D>>, i: nat, j: nat)
    requires i < |nodes| && j < |nodes|
  {
    Key(nodes[i]) == Key(nodes[j]) ==> i == j
  }

  ghost predicate Arena<D>(nodes: seq<Node<D>>, width: nat)
  {
    && |nodes| >= 1
    && nodes[0].prefixLen == 0
    && (forall i {:trigger Normalised(nodes[i], width)} :: 0 <= i < |nodes| ==> Normalised(nodes[i], width))
    && (forall i, j :: 0 <= i < |nodes| && 0 <= j < |nodes| ==> Distinct(nodes, i, j))
    && (forall i, branch :: 0 <= i < |nodes| ==> LinkOk(nodes, i, branch))
    && (forall i, branch, e :: 0 <= i < |nodes| && 0 <= e < |nodes| ==> Covers(nodes, i, branch, e))
  }

  // -------------------------------------------------------------------------
  // Meaning
  // -------------------------------------------------------------------------

  /** Node `i` holds a payload for prefix `p`. */
  ghost predicate Stores<D>(nodes: seq<Node<D>>, i: nat, p: Prefix)
    requires i < |nodes|
  {
    nodes[i].data.Some? && Key(nodes[i]) == p
  }

  /** The payload an arena holds for a prefix. */
  ghost function Payload<D>(nodes: seq<Node<D>>, p: Prefix): Option<D>
  {
    if exists i :: 0 <= i < |nodes| && Stores(nodes, i, p) then
      var i :| 0 <= i < |nodes| && Stores(nodes, i, p);
      nodes[i].data
    else None
  }

  /** The finite map from prefixes to payloads that an arena stands for. */
  ghost function Entries<D>(nodes: seq<Node<D>>): (m: map<Prefix, D>)
    ensures forall p :: p in m <==> Payload(nodes, p).Some?
    ensures forall p :: p in m ==> Payload(nodes, p) == Some(m[p])
  {
    var keys := set i | 0 <= i < |nodes| && nodes[i].data.Some? :: Key(nodes[i]);
    assert forall i :: 0 <= i < |nodes| && nodes[i].data.Some? ==> Stores(nodes, i, Key(nodes[i]));
    map p | p in keys && Payload(nodes, p).Some? :: Payload(nodes, p).value
  }

  lemma PayloadIs<D>(nodes: seq<Node<D>>, width: nat, i: nat)
    requires Arena(nodes, width) && i < |nodes|
    ensures Payload(nodes, Key(nodes[i])) == nodes[i].data
  {
    var p := Key(nodes[i]);
    if nodes[i].data.Some? {
      assert Stores(nodes, i, p);
    }
    if exists j :: 0 <= j < |nodes| && Stores(nodes, j, p) {
      var j :| 0 <= j < |nodes| && Stores(nodes, j, p) && Payload(nodes, p) == nodes[j].data;
      assert Distinct(nodes, i, j);
    }
  }

  /** Linear longest match: tries the first `n` bits of `key`, then fewer. */
  function LongestMatch<D>(m: map<Prefix, D>, key: Word, n: nat): Option<D>
    requires n <= |key|
  {
    if key[..n] in m then Some(m[key[..n]])
    else if n == 0 then None
    else LongestMatch(m, key, n - 1)
  }

  /** `LongestMatch` is the payload of the longest stored prefix of `key`, and `None` iff there is none. */
  lemma {:induction false} LongestMatchIsLongest<D>(m: map<Prefix, D>, key: Word, n: nat)
    requires n <= |key|
    ensures LongestMatch(m, key, n) == None ==> forall p :: p in m && p <= key ==> |p| > n
    ensures LongestMatch(m, key, n) != None ==>
              exists p :: p in m && p <= key && |p| <= n && LongestMatch(m, key, n) == Some(m[p])
                          && forall q :: q in m && q <= key && |q| <= n ==> |q| <= |p|
  {
    if key[..n] in m {
      assert key[..n] <= key;
    } else {
      forall p | p in m && p <= key && |p| <= n
        ensures |p| < n
      {
        assert p == key[..|p|];
      }
      if n > 0 {
        LongestMatchIsLongest(m, key, n - 1);
      }
    }
  }

  lemma {:induction false} LongestMatchSkips<D>(m: map<Prefix, D>, key: Word, lo: nat, hi: nat)
    requires lo <= hi <= |key|
    requires forall n :: lo < n <= hi ==> key[..n] !in m
    ensures LongestMatch(m, key, lo) == LongestMatch(m, key, hi)
  {
    if lo < hi {
      LongestMatchSkips(m, key, lo, hi - 1);
    }
  }

  // -------------------------------------------------------------------------
  // The arena is a rooted tree
  // -------------------------------------------------------------------------

  /** No node lies strictly between a node and its child. */
  lemma ChildIsNearest<D>(nodes: seq<Node<D>>, width: nat, i: nat, branch: bool, j: nat)
    requires Arena(nodes, width) && i < |nodes| && j < |nodes| && Next(nodes[i], branch).Some?
    requires Next(nodes[i], branch).value < |nodes|
    requires Key(nodes[i]) < Key(nodes[j]) <= Key(nodes[Next(nodes[i], branch).value])
    ensures Next(nodes[i], branch).value == j
  {
    assert LinkOk(nodes, i, branch);
    assert Covers(nodes, i, branch, j);
    assert Distinct(nodes, Next(nodes[i], branch).value, j);
  }

  /** No node is the child of two nodes, or of one node on both branches. */
  lemma OneParent<D>(nodes: seq<Node<D>>, width: nat, i: nat, bi: bool, j: nat, bj: bool)
    requires Arena(nodes, width) && i < |nodes| && j < |nodes|
    requires Next(nodes[i], bi).Some? && Next(nodes[i], bi) == Next(nodes[j], bj)
    ensures i == j && bi == bj
  {
    assert LinkOk(nodes, i, bi) && LinkOk(nodes, j, bj);
    var ki, kj, kc := Key(nodes[i]), Key(nodes[j]), Key(nodes[Next(nodes[i], bi).value]);
    assert ki == kc[..|ki|] && kj == kc[..|kj|];
    assert Distinct(nodes, i, j);
    if |ki| < |kj| {
      ChildIsNearest(nodes, width, i, bi, j);
    } else if |kj| < |ki| {
      ChildIsNearest(nodes, width, j, bj, i);
    }
  }

  ghost predicate IsChild<D>(n: Node<D>, c: nat)
  {
    Next(n, false) == Some(c) || Next(n, true) == Some(c)
  }

  /** `path` descends through child links. */
  ghost predicate Descends<D>(nodes: seq<Node<D>>, path: seq<nat>)
  {
    && |path| > 0
    && (forall k :: 0 <= k < |path| ==> path[k] < |nodes|)
    && (forall k :: 0 < k < |path| ==> IsChild(nodes[path[k - 1]], path[k]))
  }

  /** Every node is reached from the root through child links. */
  lemma ReachableFromRoot<D>(nodes: seq<Node<D>>, width: nat, e: nat) returns (path: seq<nat>)
    requires Arena(nodes, width) && e < |nodes|
    ensures Descends(nodes, path) && path[0] == 0 && path[|path| - 1] == e
  {
    path := [0];
    var at: nat := 0;
    while at != e
      invariant at < |nodes| && Key(nodes[at]) <= Key(nodes[e])
      invariant Descends(nodes, path) && path[0] == 0 && path[|path| - 1] == at
      decreases width - nodes[at].prefixLen
    {
      assert Distinct(nodes, at, e) && Normalised(nodes[at], width);
      var branch := Key(nodes[e])[|Key(nodes[at])|];
      assert Covers(nodes, at, branch, e);
      assert LinkOk(nodes, at, branch);
      at := Next(nodes[at], branch).value;
      assert Normalised(nodes[at], width);
      path := path + [at];
    }
  }

  // -------------------------------------------------------------------------
  // Structural edits
  // -------------------------------------------------------------------------

  /** Changing payloads alone keeps the shape. */
  lemma SameShape<D>(before: seq<Node<D>>, after: seq<Node<D>>, width: nat)
    requires Arena(before, width) && |after| == |before|
    requires forall i :: 0 <= i < |before| ==> after[i] == before[i].(data := after[i].data)
    ensures Arena(after, width)
  {
    assert forall i :: 0 <= i < |before| ==> Key(after[i]) == Key(before[i]);
    forall i | 0 <= i < |after|
      ensures Normalised(after[i], width)
    {
      assert Normalised(before[i], width);
    }
    forall i, j | 0 <= i < |after| && 0 <= j < |after|
      ensures Distinct(after, i, j)
    {
      assert Distinct(before, i, j);
    }
    forall i, branch | 0 <= i < |after|
      ensures LinkOk(after, i, branch)
    {
      assert LinkOk(before, i, branch);
    }
    forall i, branch, e | 0 <= i < |after| && 0 <= e < |after|
      ensures Covers(after, i, branch, e)
    {
      assert Covers(before, i, branch, e);
    }
  }

  /** An edit that keeps every payload but the one of `p`. */
  lemma OtherPayloads<D>(before: seq<Node<D>>, after: seq<Node<D>>, p: Prefix, q: Prefix, width: nat)
    requires Arena(before, width) && Arena(after, width) && |before| <= |after| && q != p
    requires forall i :: 0 <= i < |before| ==> Key(after[i]) == Key(before[i])
    requires forall i :: 0 <= i < |before| && Key(before[i]) != p ==> after[i].data == before[i].data
    requires forall i :: |before| <= i < |after| && Key(after[i]) != p ==> after[i].data == None
    ensures Payload(after, q) == Payload(before, q)
  {
    if i :| 0 <= i < |before| && Stores(before, i, q) {
      PayloadIs(before, width, i);
      PayloadIs(after, width, i);
    } else if i :| 0 <= i < |after| && Stores(after, i, q) {
      assert Stores(before, i, q);
    }
  }

  lemma EntriesUpdated<D>(before: seq<Node<D>>, after: seq<Node<D>>, width: nat, at: nat, data: D)
    requires Arena(before, width) && Arena(after, width) && |before| <= |after|
    requires forall i :: 0 <= i < |before| ==> Key(after[i]) == Key(before[i])
    requires at < |after| && after[at].data == Some(data)
    requires forall i :: 0 <= i < |before| && Key(before[i]) != Key(after[at]) ==> after[i].data == before[i].data
    requires forall i :: |before| <= i < |after| && Key(after[i]) != Key(after[at]) ==> after[i].data == None
    ensures Entries(after) == Entries(before)[Key(after[at]) := data]
  {
    var p := Key(after[at]);
    forall q | q != p
      ensures Payload(after, q) == Payload(before, q)
    {
      OtherPayloads(before, after, p, q, width);
    }
    PayloadIs(after, width, at);
  }

  /** Overwriting the payload of one node updates exactly its map entry. */
  lemma ReplaceData<D>(nodes: seq<Node<D>>, width: nat, at: nat, data: D)
    requires Arena(nodes, width) && at < |nodes|
    ensures Arena(nodes[at := nodes[at].(data := Some(data))], width)
    ensures Entries(nodes[at := nodes[at].(data := Some(data))]) == Entries(nodes)[Key(nodes[at]) := data]
  {
    var after := nodes[at := nodes[at].(data := Some(data))];
    SameShape(nodes, after, width);
    forall i | 0 <= i < |nodes|
      ensures Key(after[i]) == Key(nodes[i])
      ensures Key(nodes[i]) != Key(nodes[at]) ==> after[i].data == nodes[i].data
    {
    }
    EntriesUpdated(nodes, after, width, at, data);
  }

  /** Pushes `node` and hangs it below `at`. */
  function Attach<D>(nodes: seq<Node<D>>, at: nat, branch: bool, node: Node<D>): seq<Node<D>>
    requires at < |nodes| < MAX_STORED_INDEX
  {
    nodes[at := nodes[at].WithChild(branch, |nodes| + 1)] + [node]
  }

  /** A new node may be hung below `at`: it takes over the child there, if there is one. */
  ghost predicate Attachable<D>(nodes: seq<Node<D>>, width: nat, at: nat, branch: bool, node: Node<D>)
    requires at < |nodes|
  {
    && Normalised(node, width)
    && Below(Key(nodes[at]), branch, Key(node))
    && match Next(nodes[at], branch)
       case None =>
         Next(node, false) == Next(node, true) == None
       case Some(c) =>
         c < |nodes| && Key(node) < Key(nodes[c]) &&
         Next(node, Key(nodes[c])[|Key(node)|]) == Some(c) &&
         Next(node, !Key(nodes[c])[|Key(node)|]) == None
  }

  /** What the arena already stores below the attachment point stays below the attached node. */
  lemma AttachedNodeIsNew<D>(nodes: seq<Node<D>>, width: nat, at: nat, branch: bool, node: Node<D>, e: nat)
    requires Arena(nodes, width) && at < |nodes| && e < |nodes|
    requires Attachable(nodes, width, at, branch, node)
    ensures Key(nodes[e]) != Key(node)
    ensures Below(Key(nodes[at]), branch, Key(nodes[e])) ==> Key(node) < Key(nodes[e])
    ensures Key(node) < Key(nodes[e]) ==>
              Next(nodes[at], branch).Some? && Key(nodes[Next(nodes[at], branch).value]) <= Key(nodes[e])
  {
    assert Covers(nodes, at, branch, e);
  }

  /** What attaching does to the nodes, link by link. */
  ghost predicate Attached<D>(nodes: seq<Node<D>>, after: seq<Node<D>>, at: nat, branch: bool, node: Node<D>)
  {
    && |after| == |nodes| + 1
    && after[|nodes|] == node
    && (forall i {:trigger SameNode(nodes[i], after[i])} :: 0 <= i < |nodes| ==> SameNode(nodes[i], after[i]))
    && (forall i, b :: 0 <= i < |nodes| ==>
          Next(after[i], b) == if i == at && b == branch then Some(|nodes|) else Next(nodes[i], b))
  }

  /** The same entry, children aside. */
  ghost predicate SameNode<D>(n: Node<D>, m: Node<D>)
  {
    m.prefix == n.prefix && m.prefixLen == n.prefixLen && m.data == n.data && Key(m) == Key(n)
  }

  lemma AttachedNodes<D>(nodes: seq<Node<D>>, at: nat, branch: bool, node: Node<D>)
    requires at < |nodes| < MAX_STORED_INDEX
    ensures Attached(nodes, Attach(nodes, at, branch, node), at, branch, node)
  {
  }

  lemma CoversOldNode<D>(nodes: seq<Node<D>>, after: seq<Node<D>>, width: nat, at: nat, branch: bool, node: Node<D>,
                         i: nat, b: bool, e: nat)
    requires Arena(nodes, width) && at < |nodes|
    requires Attachable(nodes, width, at, branch, node) && Attached(nodes, after, at, branch, node)
    requires i <= |nodes| && e < |nodes|
    ensures Covers(after, i, b, e)
  {
    AttachedNodeIsNew(nodes, width, at, branch, node, e);
    assert SameNode(nodes[e], after[e]);
    if i < |nodes| {
      assert SameNode(nodes[i], after[i]);
      assert Covers(nodes, i, b, e);
      if Next(nodes[i], b).Some? {
        assert LinkOk(nodes, i, b);
        assert SameNode(nodes[Next(nodes[i], b).value], after[Next(nodes[i], b).value]);
      }
    } else if Below(Key(node), b, Key(nodes[e])) {
      var c := Next(nodes[at], branch).value;
      assert SameNode(nodes[c], after[c]);
    }
  }

  lemma CoversNewNode<D>(nodes: seq<Node<D>>, after: seq<Node<D>>, width: nat, at: nat, branch: bool, node: Node<D>,
                         i: nat, b: bool)
    requires Arena(nodes, width) && at < |nodes|
    requires Attachable(nodes, width, at, branch, node) && Attached(nodes, after, at, branch, node)
    requires i <= |nodes|
    ensures Covers(after, i, b, |nodes|)
  {
    if i < |nodes| && Below(Key(nodes[i]), b, Key(node)) {
      assert SameNode(nodes[i], after[i]);
      AttachedNodeIsNew(nodes, width, at, branch, node, i);
      NearerAncestor(Key(nodes[i]), Key(nodes[at]), b, branch, Key(node));
      assert Distinct(nodes, i, at);
      if i != at {
        assert Covers(nodes, i, b, at);
        var c := Next(nodes[i], b).value;
        assert SameNode(nodes[c], after[c]);
      }
    } else if i < |nodes| {
      assert SameNode(nodes[i], after[i]);
    }
  }

  lemma AttachLinks<D>(nodes: seq<Node<D>>, after: seq<Node<D>>, width: nat, at: nat, branch: bool, node: Node<D>,
                       i: nat, b: bool)
    requires Arena(nodes, width) && at < |nodes|
    requires Attachable(nodes, width, at, branch, node) && Attached(nodes, after, at, branch, node)
    requires i <= |nodes|
    ensures LinkOk(after, i, b)
  {
    if i < |nodes| {
      assert SameNode(nodes[i], after[i]);
      assert LinkOk(nodes, i, b);
      if Next(nodes[i], b).Some? {
        assert SameNode(nodes[Next(nodes[i], b).value], after[Next(nodes[i], b).value]);
      }
    } else if Next(node, b).Some? {
      var c := Next(node, b).value;
      assert SameNode(nodes[c], after[c]);
    }
  }

  lemma AttachDistinct<D>(nodes: seq<Node<D>>, after: seq<Node<D>>, width: nat, at: nat, branch: bool, node: Node<D>,
                          i: nat, j: nat)
    requires Arena(nodes, width) && at < |nodes|
    requires Attachable(nodes, width, at, branch, node) && Attached(nodes, after, at, branch, node)
    requires i <= |nodes| && j <= |nodes|
    ensures Distinct(after, i, j) && Normalised(after[i], width)
  {
    if i < |nodes| {
      assert SameNode(nodes[i], after[i]);
      AttachedNodeIsNew(nodes, width, at, branch, node, i);
      assert Normalised(nodes[i], width);
    }
    if j < |nodes| {
      assert SameNode(nodes[j], after[j]);
      AttachedNodeIsNew(nodes, width, at, branch, node, j);
    }
    assert i < |nodes| && j < |nodes| ==> Distinct(nodes, i, j);
  }

  /** Attaching keeps the arena a tree of distinct prefixes. */
  lemma AttachKeepsArena<D>(nodes: seq<Node<D>>, after: seq<Node<D>>, width: nat, at: nat, branch: bool, node: Node<D>)
    requires Arena(nodes, width) && at < |nodes|
    requires Attachable(nodes, width, at, branch, node) && Attached(nodes, after, at, branch, node)
    ensures Arena(after, width)
  {
    forall i, j | 0 <= i < |after| && 0 <= j < |after|
      ensures Distinct(after, i, j)
    {
      AttachDistinct(nodes, after, width, at, branch, node, i, j);
    }
    forall i, b | 0 <= i < |after|
      ensures LinkOk(after, i, b)
    {
      AttachLinks(nodes, after, width, at, branch, node, i, b);
    }
    forall i, b, e | 0 <= i < |after| && 0 <= e < |after|
      ensures Covers(after, i, b, e)
    {
      if e < |nodes| {
        CoversOldNode(nodes, after, width, at, branch, node, i, b, e);
      } else {
        CoversNewNode(nodes, after, width, at, branch, node, i, b);
      }
    }
    forall i | 0 <= i < |after|
      ensures Normalised(after[i], width)
    {
      AttachDistinct(nodes, after, width, at, branch, node, i, i);
    }
    assert SameNode(nodes[0], after[0]);
  }

  /** Attaching a node adds exactly that node's own entry, which was not there before. */
  lemma AttachEntries<D>(nodes: seq<Node<D>>, width: nat, at: nat, branch: bool, node: Node<D>)
    requires Arena(nodes, width) && at < |nodes| < MAX_STORED_INDEX
    requires Attachable(nodes, width, at, branch, node)
    ensures Arena(Attach(nodes, at, branch, node), width)
    ensures Payload(nodes, Key(node)) == None
    ensures Entries(Attach(nodes, at, branch, node)) ==
            if node.data.Some? then Entries(nodes)[Key(node) := node.data.value] else Entries(nodes)
  {
    var after := Attach(nodes, at, branch, node);
    AttachedNodes(nodes, at, branch, node);
    AttachKeepsArena(nodes, after, width, at, branch, node);
    forall e | 0 <= e < |nodes|
      ensures Key(nodes[e]) != Key(node) && Key(after[e]) == Key(nodes[e]) && after[e].data == nodes[e].data
    {
      AttachedNodeIsNew(nodes, width, at, branch, node, e);
      assert SameNode(nodes[e], after[e]);
    }
    assert Payload(nodes, Key(node)) == None;
    if node.data.Some? {
      EntriesUpdated(nodes, after, width, |nodes|, node.data.value);
    } else {
      forall q
        ensures Payload(after, q) == Payload(nodes, q)
      {
        if q == Key(node) {
          PayloadIs(after, width, |nodes|);
        } else {
          OtherPayloads(nodes, after, Key(node), q, width);
        }
      }
    }
  }

  /** Of two prefixes of `p`, either the first continues to the second, or the second to the first. */
  lemma NearerAncestor(k: Prefix, ka: Prefix, b: bool, branch: bool, p: Prefix)
    requires Below(k, b, p) && Below(ka, branch, p)
    ensures k == ka || Below(k, b, ka) || Below(ka, branch, k)
  {
  }
}
