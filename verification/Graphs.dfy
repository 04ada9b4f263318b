/** Finite directed graphs of entity digests, and sorted digest lists. Digests are
    32-byte strings compared bytewise, that is, numbers. */
module Graphs {
  type Node = nat

  /** A node without an entry has no successors. */
  type Adjacency = map<Node, seq<Node>>

  function Succ(g: Adjacency, x: Node): seq<Node> { if x in g then g[x] else [] }

  ghost predicate Path(g: Adjacency, p: seq<Node>) {
    |p| > 0 && forall i :: 0 <= i < |p| - 1 ==> p[i + 1] in Succ(g, p[i])
  }

  /** There is a path of zero or more edges. */
  ghost predicate Reach(g: Adjacency, x: Node, y: Node) {
    exists p :: Path(g, p) && p[0] == x && p[|p| - 1] == y
  }

  ghost predicate Mutual(g: Adjacency, x: Node, y: Node) { Reach(g, x, y) && Reach(g, y, x) }

  /** x lies on a cycle of one or more edges. */
  ghost predicate OnCycle(g: Adjacency, x: Node) { exists y :: y in Succ(g, x) && Reach(g, y, x) }

  lemma ReachSelf(g: Adjacency, x: Node)
    ensures Reach(g, x, x)
  {
    assert Path(g, [x]) && [x][0] == x && [x][|[x]| - 1] == x;
  }

  lemma ReachTrans(g: Adjacency, x: Node, y: Node, z: Node)
    requires Reach(g, x, y) && Reach(g, y, z)
    ensures Reach(g, x, z)
  {
    var p :| Path(g, p) && p[0] == x && p[|p| - 1] == y;
    var q :| Path(g, q) && q[0] == y && q[|q| - 1] == z;
    var r := p + q[1..];
    forall i | 0 <= i < |r| - 1 ensures r[i + 1] in Succ(g, r[i]) {
      if i >= |p| - 1 { assert r[i] == q[i - (|p| - 1)] && r[i + 1] == q[i + 1 - (|p| - 1)]; }
    }
    assert Path(g, r) && r[0] == x && r[|r| - 1] == z;
  }

  lemma ReachEdge(g: Adjacency, x: Node, y: Node)
    requires y in Succ(g, x)
    ensures Reach(g, x, y)
  {
    assert Path(g, [x, y]) && [x, y][0] == x && [x, y][|[x, y]| - 1] == y;
  }

  lemma {:induction false} PathStaysIn(g: Adjacency, s: set<Node>, p: seq<Node>)
    requires Path(g, p) && p[0] in s
    requires forall x, y :: x in s && y in Succ(g, x) ==> y in s
    ensures p[|p| - 1] in s
    decreases |p|
  {
    if |p| > 1 {
      assert p[1] in Succ(g, p[0]);
      assert Path(g, p[1..]);
      PathStaysIn(g, s, p[1..]);
    }
  }

  /** What a closed set reaches is in it. */
  lemma ReachStaysIn(g: Adjacency, s: set<Node>, x: Node, y: Node)
    requires x in s && Reach(g, x, y)
    requires forall u, v :: u in s && v in Succ(g, u) ==> v in s
    ensures y in s
  {
    var p :| Path(g, p) && p[0] == x && p[|p| - 1] == y;
    PathStaysIn(g, s, p);
  }

  lemma PrefixMembers(a: seq<Node>, b: seq<Node>)
    requires a <= b
    ensures forall x :: x in a ==> x in b
  {
    forall x | x in a ensures x in b {
      var i :| 0 <= i < |a| && a[i] == x;
      assert b[i] == x;
    }
  }

  // ---- sorted lists -----------------------------------------------------------

  predicate Ascending(s: seq<Node>) { forall i, j :: 0 <= i < j < |s| ==> s[i] < s[j] }

  /** Inserts a digest into an ascending list, once. */
  function InsertDigest(s: seq<Node>, d: Node): (r: seq<Node>)
    requires Ascending(s)
    ensures Ascending(r) && forall x :: x in r <==> x in s || x == d
    decreases |s|
  {
    if s == [] then [d]
    else if s[|s| - 1] == d then s
    else if s[|s| - 1] < d then s + [d]
    else
      var front := InsertDigest(s[..|s| - 1], d);
      FrontBelow(s, d, front);
      front + [s[|s| - 1]]
  }

  lemma FrontBelow(s: seq<Node>, d: Node, front: seq<Node>)
    requires s != [] && Ascending(s) && Ascending(front) && d < s[|s| - 1]
    requires forall x :: x in front <==> x in s[..|s| - 1] || x == d
    ensures Ascending(front + [s[|s| - 1]]) && forall x :: x in front + [s[|s| - 1]] <==> x in s || x == d
  {
    var n := |s| - 1;
    assert s == s[..n] + [s[n]];
    forall i | 0 <= i < |front| ensures front[i] < s[n] {
      assert front[i] in front;
      if front[i] != d {
        var k :| 0 <= k < n && s[k] == front[i];
      }
    }
  }

  /** There is one ascending list of given elements. */
  lemma {:induction false} OneAscendingList(s: seq<nat>, t: seq<nat>)
    requires Ascending(s) && Ascending(t) && forall x :: x in s <==> x in t
    ensures s == t
    decreases |s|
  {
    assert s != [] ==> s[|s| - 1] in s;
    assert t != [] ==> t[|t| - 1] in t;
    if s != [] {
      GreatestIsLast(s, t[|t| - 1]);
      GreatestIsLast(t, s[|s| - 1]);
      assert s[|s| - 1] == t[|t| - 1];
      FrontMembers(s);
      FrontMembers(t);
      var u, v := s[..|s| - 1], t[..|t| - 1];
      forall x ensures x in u <==> x in v {
        assert x in u <==> x in s && x != s[|s| - 1];
      }
      OneAscendingList(s[..|s| - 1], t[..|t| - 1]);
      assert s == s[..|s| - 1] + [s[|s| - 1]] && t == t[..|t| - 1] + [t[|t| - 1]];
    }
  }

  lemma GreatestIsLast(s: seq<nat>, x: nat)
    requires Ascending(s) && x in s
    ensures x <= s[|s| - 1]
  {
  }

  lemma FrontMembers(s: seq<nat>)
    requires s != [] && Ascending(s)
    ensures forall x :: x in s[..|s| - 1] <==> x in s && x != s[|s| - 1]
  {
    var n := |s| - 1;
    assert s == s[..n] + [s[n]];
  }
}
