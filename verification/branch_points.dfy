/**
 How many nodes a set of prefixes needs: one for the root, one for each prefix, and one wherever two of them branch off.
 A trie that has only ever been inserted into has exactly those, in whatever order the prefixes came.
 */
module BranchPoints {
  import opened Prefixes
  import opened TrieArena

  /** The longest common prefix. */
  function Common(a: Prefix, b: Prefix): (c: Prefix)
    ensures c <= a && c <= b
  {
    a[..CommonLen(a, b)]
  }

  lemma CommonIs(a: Prefix, b: Prefix)
    ensures Common(a, b) == Common(b, a)
    ensures a <= b ==> Common(a, b) == a
    ensures Common(a, a) == a
  {
    CommonLenUnique(b, a, CommonLen(a, b));
    if a <= b {
      CommonLenUnique(a, b, |a|);
    }
    CommonLenUnique(a, a, |a|);
  }

  /** Longer prefixes branch where shorter ones already do. */
  lemma {:induction false} CommonOfLonger(a: Prefix, b: Prefix, x: Prefix, y: Prefix)
    requires x <= a && y <= b && CommonLen(x, y) < |x| && CommonLen(x, y) < |y|
    ensures Common(a, b) == Common(x, y)
  {
    var n := CommonLen(x, y);
    assert a[..n] == x[..n] && b[..n] == y[..n] && a[n] == x[n] && b[n] == y[n];
    CommonLenUnique(a, b, n);
  }

  // -------------------------------------------------------------------------
  // The nodes a set of prefixes needs
  // -------------------------------------------------------------------------

  ghost function Nodes(s: set<Prefix>): set<Prefix>
  {
    {[]} + s + (set a, b | a in s && b in s :: Common(a, b))
  }

  ghost predicate Closed(k: set<Prefix>)
  {
    forall a, b :: a in k && b in k ==> Common(a, b) in k
  }

  lemma NodeExtends(s: set<Prefix>, x: Prefix)
    requires x in Nodes(s)
    ensures x == [] || exists a :: a in s && x <= a
  {
  }

  /** Where two nodes branch off there is a node. */
  lemma NodesClosed(s: set<Prefix>)
    ensures Closed(Nodes(s))
  {
    forall x, y | x in Nodes(s) && y in Nodes(s)
      ensures Common(x, y) in Nodes(s)
    {
      CommonIs(x, y);
      if CommonLen(x, y) < |x| && CommonLen(x, y) < |y| {
        NodeExtends(s, x);
        NodeExtends(s, y);
        var a :| a in s && x <= a;
        var b :| b in s && y <= b;
        CommonOfLonger(a, b, x, y);
      } else if CommonLen(x, y) == |y| {
        assert y == x[..|y|];
      }
    }
  }

  lemma NodesGrow(s: set<Prefix>, t: set<Prefix>)
    requires s <= t
    ensures Nodes(s) <= Nodes(t)
  {
  }

  /** The node `e` shares as much with `p` as any. */
  ghost predicate Closest(k: set<Prefix>, p: Prefix, e: Prefix)
  {
    e in k && forall x :: x in k ==> CommonLen(p, x) <= CommonLen(p, e)
  }

  /** One more prefix needs at most two more nodes: its own and the one where it branches off. */
  lemma OneMore(s: set<Prefix>, p: Prefix, e: Prefix)
    requires Closest(Nodes(s), p, e)
    ensures Nodes(s + {p}) == Nodes(s) + {p, Common(p, e)}
  {
    var all := Nodes(s) + {p, Common(p, e)};
    NodesGrow(s, s + {p});
    BranchIsNode(s, p, e);
    forall x | x in Nodes(s + {p})
      ensures x in all
    {
      if x != [] && x !in s + {p} {
        var a, b :| a in s + {p} && b in s + {p} && x == Common(a, b);
        CommonIs(a, b);
        if a == p && b in s {
          BranchesThere(s, p, e, b);
        } else if b == p && a in s {
          BranchesThere(s, p, e, a);
        }
      }
    }
  }

  /** Where the new prefix branches off is where it does from one of the set, or a node already. */
  lemma BranchIsNode(s: set<Prefix>, p: Prefix, e: Prefix)
    requires e in Nodes(s)
    ensures Common(p, e) in Nodes(s + {p})
  {
    CommonIs(p, e);
    if CommonLen(p, e) == |e| {
      assert e == p[..|e|] == Common(p, e);
      NodesGrow(s, s + {p});
    } else if CommonLen(p, e) == |p| {
    } else {
      NodeExtends(s, e);
      var a :| a in s && e <= a;
      CommonOfLonger(p, a, p, e);
    }
  }

  lemma BranchesThere(s: set<Prefix>, p: Prefix, e: Prefix, a: Prefix)
    requires Closest(Nodes(s), p, e) && a in s
    ensures Common(p, a) in Nodes(s) + {p, Common(p, e)}
  {
    var n := CommonLen(p, a);
    assert n <= CommonLen(p, e);
    if n < CommonLen(p, e) && n < |a| {
      assert e[n] == p[n] && e[..n] == p[..n];
      CommonLenUnique(e, a, n);
      NodesClosed(s);
      assert Common(e, a) == Common(p, a);
    } else if n == |a| {
      assert Common(p, a) == a;
    }
  }

  lemma {:induction false} HasClosest(k: set<Prefix>, p: Prefix) returns (e: Prefix)
    requires k != {}
    ensures Closest(k, p, e)
  {
    e :| e in k;
    if k != {e} {
      var f := HasClosest(k - {e}, p);
      if CommonLen(p, f) > CommonLen(p, e) {
        e := f;
      }
    }
  }

  /** At most two nodes a prefix, and the root. */
  lemma {:induction false} AtMostTwoEach(s: set<Prefix>)
    ensures |Nodes(s)| <= 2 * |s| + 1
  {
    if s == {} {
      assert Nodes(s) == {[]};
    } else {
      var p :| p in s;
      AtMostTwoEach(s - {p});
      var e := HasClosest(Nodes(s - {p}), p);
      OneMore(s - {p}, p, e);
      assert s == s - {p} + {p};
      TwoMore(Nodes(s - {p}), p, Common(p, e));
    }
  }

  lemma TwoMore<T>(k: set<T>, x: T, y: T)
    ensures |k + {x, y}| <= |k| + 2
  {
    assert k + {x, y} == k + ({x, y} - k);
    assert |{x, y} - k| <= |{x, y}| <= 2 by {
      Smaller({x, y} - k, {x, y});
    }
  }

  lemma TwoMoreExactly<T>(k: set<T>, x: T, y: T)
    ensures |k + {x, y}| == |k| + (if x in k then 0 else 1) + (if y == x || y in k then 0 else 1)
  {
    assert k + {x, y} == k + {x} + {y};
    assert x in k ==> k + {x} == k;
    assert y == x || y in k ==> k + {x} + {y} == k + {x};
  }

  lemma {:induction false} Smaller<T>(s: set<T>, t: set<T>)
    requires s <= t
    ensures |s| <= |t|
    ensures |s| == |t| ==> s == t
  {
    assert t == s + (t - s);
  }

  // -------------------------------------------------------------------------
  // Prefixes of which none extends another need at least two nodes each, but for one
  // -------------------------------------------------------------------------

  ghost predicate Incomparable(s: set<Prefix>)
  {
    forall a, b :: a in s && b in s && a <= b ==> a == b
  }

  /** Those at or below a prefix. */
  ghost function Under(k: set<Prefix>, p: Prefix): set<Prefix>
  {
    set x | x in k && p <= x
  }

  lemma OneDown(p: Prefix, bit: bool, x: Prefix)
    ensures p + [bit] <= x <==> Below(p, bit, x)
  {
    if Below(p, bit, x) {
      assert x[..|p| + 1] == p + [bit];
    }
    if p + [bit] <= x {
      assert x[..|p| + 1] == p + [bit];
      assert p == (p + [bit])[..|p|] == x[..|p|];
    }
  }

  lemma UnderSplits(k: set<Prefix>, p: Prefix)
    ensures Under(k, p) - {p} == Under(k, p + [false]) + Under(k, p + [true])
    ensures Under(k, p + [false]) !! Under(k, p + [true])
  {
    forall x | x in k
      ensures p <= x && x != p <==> p + [false] <= x || p + [true] <= x
      ensures !(p + [false] <= x && p + [true] <= x)
    {
      OneDown(p, false, x);
      OneDown(p, true, x);
    }
  }

  ghost predicate Fitting(s: set<Prefix>, width: nat)
  {
    forall x :: x in s ==> |x| <= width
  }

  lemma {:induction false} TwoEach(s: set<Prefix>, k: set<Prefix>, p: Prefix, width: nat)
    requires Closed(k) && s <= k && Incomparable(s) && Fitting(s, width) && Under(s, p) != {}
    ensures |Under(k, p)| >= 2 * |Under(s, p)| - 1
    decreases width + 1 - |p|
  {
    UnderFits(s, p, width);
    if p in s {
      NothingBelow(s, k, p);
    } else {
      UnderSplits(s, p);
      assert Under(s, p) == Under(s, p + [false]) + Under(s, p + [true]);
      if Under(s, p + [false]) != {} {
        TwoEach(s, k, p + [false], width);
      }
      if Under(s, p + [true]) != {} {
        TwoEach(s, k, p + [true], width);
      }
      UnderCount(s, k, p);
    }
  }

  lemma UnderFits(s: set<Prefix>, p: Prefix, width: nat)
    requires Fitting(s, width) && Under(s, p) != {}
    ensures |p| <= width
  {
    var x :| x in Under(s, p);
  }

  lemma NothingBelow(s: set<Prefix>, k: set<Prefix>, p: Prefix)
    requires Incomparable(s) && p in s && s <= k
    ensures |Under(s, p)| == 1 <= |Under(k, p)|
  {
    assert Under(s, p) == {p};
    Smaller(Under(s, p), Under(k, p));
  }

  /** The nodes below a prefix are those on either side and, if there are any on both, the prefix itself. */
  lemma UnderCount(s: set<Prefix>, k: set<Prefix>, p: Prefix)
    requires Closed(k) && s <= k
    ensures var both := Under(s, p + [false]) != {} && Under(s, p + [true]) != {};
            |Under(k, p)| >= |Under(k, p + [false])| + |Under(k, p + [true])| + (if both then 1 else 0)
  {
    UnderSplits(k, p);
    Smaller(Under(k, p) - {p}, Under(k, p));
    if Under(s, p + [false]) != {} && Under(s, p + [true]) != {} {
      Fork(k, p, s);
      assert p in Under(k, p);
    }
  }

  lemma Fork(k: set<Prefix>, p: Prefix, s: set<Prefix>)
    requires Closed(k) && s <= k && Under(s, p + [false]) != {} && Under(s, p + [true]) != {}
    ensures p in k
  {
    var a :| a in Under(s, p + [false]);
    var b :| b in Under(s, p + [true]);
    assert a[..|p|] == p == b[..|p|] && a[|p|] != b[|p|];
    CommonLenUnique(a, b, |p|);
    assert Common(a, b) == p;
  }

  /** The number of nodes that `n` networks need, of which none contains another. */
  lemma NodesOfIncomparable(s: set<Prefix>, width: nat)
    requires Incomparable(s) && s != {} && Fitting(s, width)
    ensures 2 * |s| - 1 <= |Nodes(s)| <= 2 * |s| + 1
  {
    AtMostTwoEach(s);
    NodesClosed(s);
    assert Under(s, []) == s && Under(Nodes(s), []) == Nodes(s);
    TwoEach(s, Nodes(s), [], width);
  }

  // -------------------------------------------------------------------------
  // The nodes of an arena
  // -------------------------------------------------------------------------

  ghost function KeysOf<D>(nodes: seq<Node<D>>): set<Prefix>
  {
    set i | 0 <= i < |nodes| :: Key(nodes[i])
  }

  lemma {:induction false} KeyCount<D>(nodes: seq<Node<D>>)
    requires forall i, j :: 0 <= i < |nodes| && 0 <= j < |nodes| ==> Distinct(nodes, i, j)
    ensures |KeysOf(nodes)| == |nodes|
  {
    if nodes != [] {
      var n := |nodes| - 1;
      var before := nodes[..n];
      forall i, j | 0 <= i < n && 0 <= j < n
        ensures Distinct(before, i, j)
      {
        assert Distinct(nodes, i, j);
      }
      KeyCount(before);
      forall i | 0 <= i < n
        ensures Key(before[i]) != Key(nodes[n])
      {
        assert Distinct(nodes, i, n);
      }
      assert KeysOf(nodes) == KeysOf(before) + {Key(nodes[n])};
    }
  }

  /** Where two nodes of an arena branch off there is a node: the last one above both. */
  lemma ArenaBranches<D>(nodes: seq<Node<D>>, width: nat, i: nat, j: nat)
    requires Arena(nodes, width) && i < |nodes| && j < |nodes|
    ensures Common(Key(nodes[i]), Key(nodes[j])) in KeysOf(nodes)
  {
    var a, b := Key(nodes[i]), Key(nodes[j]);
    var c := Common(a, b);
    var at: nat := 0;
    while Key(nodes[at]) != c
      invariant at < |nodes| && Key(nodes[at]) <= c
      decreases width - nodes[at].prefixLen
    {
      var ka := Key(nodes[at]);
      assert Normalised(nodes[at], width);
      var branch := c[|ka|];
      assert Covers(nodes, at, branch, i) && Covers(nodes, at, branch, j) && LinkOk(nodes, at, branch);
      var next := Next(nodes[at], branch).value;
      assert Normalised(nodes[next], width);
      CommonIsLongest(a, b, Key(nodes[next]));
      at := next;
    }
  }

  lemma CommonIsLongest(a: Prefix, b: Prefix, x: Prefix)
    requires x <= a && x <= b
    ensures x <= Common(a, b)
  {
    assert x == a[..|x|] == b[..|x|];
    assert |x| <= CommonLen(a, b);
    assert x == a[..CommonLen(a, b)][..|x|];
  }

  lemma ArenaClosed<D>(nodes: seq<Node<D>>, width: nat)
    requires Arena(nodes, width)
    ensures Closed(KeysOf(nodes)) && [] in KeysOf(nodes) && |KeysOf(nodes)| == |nodes|
  {
    KeyCount(nodes);
    assert Normalised(nodes[0], width) && Key(nodes[0]) == [];
    forall x, y | x in KeysOf(nodes) && y in KeysOf(nodes)
      ensures Common(x, y) in KeysOf(nodes)
    {
      var i :| 0 <= i < |nodes| && Key(nodes[i]) == x;
      var j :| 0 <= j < |nodes| && Key(nodes[j]) == y;
      ArenaBranches(nodes, width, i, j);
    }
  }
}
