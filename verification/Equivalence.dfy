/** The equivalence closure: a union-find whose root is the least digest of its class. */
module Equivalence {
  import opened Graphs

  type Parents = map<Node, Node>

  /** Parents never ascend, so every walk up ends. */
  ghost predicate Descending(p: Parents) { forall d :: d in p ==> p[d] in p && p[d] <= d }

  function Root(p: Parents, d: Node): Node
    decreases d
  {
    if d in p && p[d] < d then Root(p, p[d]) else d
  }

  lemma {:induction false} RootFacts(p: Parents, d: Node)
    requires Descending(p)
    ensures Root(p, d) <= d && Root(p, Root(p, d)) == Root(p, d)
    ensures d in p ==> Root(p, d) in p && p[Root(p, d)] == Root(p, d) && Root(p, p[d]) == Root(p, d)
    decreases d
  {
    if d in p && p[d] < d { RootFacts(p, p[d]); }
  }

  /** Pointing a node at its own root changes nobody's root. */
  lemma {:induction false} CompressKeepsRoots(p: Parents, c: Node, d: Node)
    requires Descending(p) && c in p
    ensures Root(p[c := Root(p, c)], d) == Root(p, d)
    decreases d
  {
    RootFacts(p, c);
    var q := p[c := Root(p, c)];
    if d == c {
      if Root(p, c) < c { CompressKeepsRoots(p, c, Root(p, c)); }
    } else if d in p && p[d] < d {
      CompressKeepsRoots(p, c, p[d]);
    }
  }

  /** Pointing one root at another merges their classes. */
  lemma {:induction false} LinkMergesRoots(p: Parents, low: Node, high: Node, d: Node)
    requires Descending(p) && low in p && high in p && low < high
    requires p[low] == low && p[high] == high
    ensures Root(p[high := low], d) == if Root(p, d) == high then low else Root(p, d)
    decreases d
  {
    var q := p[high := low];
    if d == high {
      assert Root(q, low) == low;
    } else if d in p && p[d] < d {
      LinkMergesRoots(p, low, high, p[d]);
    }
  }

  // ---- the classes the declared pairs generate --------------------------------------

  datatype Pair = Pair(a: Node, b: Node)

  predicate Joins(pairs: seq<Pair>, x: Node, y: Node) { Pair(x, y) in pairs || Pair(y, x) in pairs }

  ghost predicate Chain(pairs: seq<Pair>, p: seq<Node>) {
    |p| > 0 && forall i :: 0 <= i < |p| - 1 ==> Joins(pairs, p[i], p[i + 1])
  }

  /** x and y are connected by declared pairs. */
  ghost predicate Linked(pairs: seq<Pair>, x: Node, y: Node) {
    exists p :: Chain(pairs, p) && p[0] == x && p[|p| - 1] == y
  }

  lemma LinkedSelf(pairs: seq<Pair>, x: Node)
    ensures Linked(pairs, x, x)
  {
    assert Chain(pairs, [x]) && [x][0] == x && [x][|[x]| - 1] == x;
  }

  lemma LinkedPair(pairs: seq<Pair>, x: Node, y: Node)
    requires Joins(pairs, x, y)
    ensures Linked(pairs, x, y)
  {
    assert Chain(pairs, [x, y]) && [x, y][0] == x && [x, y][|[x, y]| - 1] == y;
  }

  lemma LinkedTrans(pairs: seq<Pair>, x: Node, y: Node, z: Node)
    requires Linked(pairs, x, y) && Linked(pairs, y, z)
    ensures Linked(pairs, x, z)
  {
    var p :| Chain(pairs, p) && p[0] == x && p[|p| - 1] == y;
    var q :| Chain(pairs, q) && q[0] == y && q[|q| - 1] == z;
    var r := p + q[1..];
    forall i | 0 <= i < |r| - 1 ensures Joins(pairs, r[i], r[i + 1]) {
      if i >= |p| - 1 { assert r[i] == q[i - (|p| - 1)] && r[i + 1] == q[i + 1 - (|p| - 1)]; }
    }
    assert Chain(pairs, r) && r[0] == x && r[|r| - 1] == z;
  }

  lemma LinkedMore(pairs: seq<Pair>, extra: Pair, x: Node, y: Node)
    requires Linked(pairs, x, y)
    ensures Linked(pairs + [extra], x, y)
  {
    var p :| Chain(pairs, p) && p[0] == x && p[|p| - 1] == y;
    assert Chain(pairs + [extra], p);
  }

  /** The table stands for the pairs: same root iff connected. */
  ghost predicate Represents(p: Parents, pairs: seq<Pair>) {
    forall x, y :: Root(p, x) == Root(p, y) <==> Linked(pairs, x, y)
  }

  lemma {:induction false} ChainKeepsRoot(p: Parents, pairs: seq<Pair>, c: seq<Node>)
    requires Chain(pairs, c) && forall x, y :: Joins(pairs, x, y) ==> Root(p, x) == Root(p, y)
    ensures Root(p, c[0]) == Root(p, c[|c| - 1])
    decreases |c|
  {
    if |c| > 1 {
      assert Joins(pairs, c[0], c[1]);
      assert Chain(pairs, c[1..]);
      ChainKeepsRoot(p, pairs, c[1..]);
    }
  }

  /** Merging the classes of a and b is what declaring the pair does. */
  lemma MergeRepresents(p: Parents, q: Parents, pairs: seq<Pair>, a: Node, b: Node)
    requires Represents(p, pairs)
    requires forall d :: Root(q, d) == if Root(p, d) == Root(p, a) || Root(p, d) == Root(p, b) then Root(q, a) else Root(p, d)
    requires Root(q, a) == Root(p, a) || Root(q, a) == Root(p, b)
    ensures Represents(q, pairs + [Pair(a, b)])
  {
    hide Root, Linked, Chain;
    var more := pairs + [Pair(a, b)];
    forall x, y | Joins(more, x, y) ensures Root(q, x) == Root(q, y) {
      if Joins(pairs, x, y) { LinkedPair(pairs, x, y); }
    }
    forall x, y ensures Root(q, x) == Root(q, y) <==> Linked(more, x, y) {
      if Linked(more, x, y) { LinkedKeepsRoot(q, more, x, y); }
      if Root(q, x) == Root(q, y) {
        if Root(p, x) == Root(p, y) {
          LinkedMore(pairs, Pair(a, b), x, y);
        } else {
          ThroughThePair(p, pairs, a, b, x, y);
        }
      }
    }
  }

  lemma LinkedKeepsRoot(p: Parents, pairs: seq<Pair>, x: Node, y: Node)
    requires Linked(pairs, x, y) && forall u, v :: Joins(pairs, u, v) ==> Root(p, u) == Root(p, v)
    ensures Root(p, x) == Root(p, y)
  {
    hide Root;
    var c :| Chain(pairs, c) && c[0] == x && c[|c| - 1] == y;
    ChainKeepsRoot(p, pairs, c);
  }

  lemma ThroughThePair(p: Parents, pairs: seq<Pair>, a: Node, b: Node, x: Node, y: Node)
    requires Represents(p, pairs)
    requires (Root(p, x) == Root(p, a) && Root(p, y) == Root(p, b)) || (Root(p, x) == Root(p, b) && Root(p, y) == Root(p, a))
    ensures Linked(pairs + [Pair(a, b)], x, y)
  {
    hide Root, Linked;
    var more := pairs + [Pair(a, b)];
    var u, v := if Root(p, x) == Root(p, a) then a else b, if Root(p, x) == Root(p, a) then b else a;
    assert Linked(pairs, x, u) && Linked(pairs, v, y);
    LinkedMore(pairs, Pair(a, b), x, u);
    LinkedMore(pairs, Pair(a, b), v, y);
    LinkedPair(more, u, v);
    LinkedTrans(more, x, u, v);
    LinkedTrans(more, x, v, y);
  }

  /** Every node has the root it had. */
  ghost predicate Unmoved(p: Parents, q: Parents) { forall x :: Root(q, x) == Root(p, x) }

  // ---- the structure ------------------------------------------------------------------

  class UnionFind {
    var parent: Parents
    ghost var pairs: seq<Pair>

    ghost predicate Valid()
      reads this
    {
      Descending(parent) && Represents(parent, pairs)
    }

    constructor ()
      ensures Valid() && parent == map[] && pairs == []
    {
      parent, pairs := map[], [];
      new;
      NothingLinked();
    }

    lemma NothingLinked()
      ensures Represents(map[], [])
    {
      forall x, y ensures Root(map[], x) == Root(map[], y) <==> Linked([], x, y) {
        if x == y { LinkedSelf([], x); }
        if Linked([], x, y) { LinkedKeepsRoot(map[], [], x, y); }
      }
    }

    /** Follows parents from a known node to the root. */
    method Climb(d: Node) returns (root: Node)
      requires Valid() && d in parent
      ensures root == Root(parent, d) && root in parent && parent[root] == root && Root(parent, root) == root
    {
      hide Represents, Root, Descending;
      root := parent[d];
      RootFacts(parent, d);
      DescendingStep(parent, d);
      while root != parent[root]
        invariant root in parent && Root(parent, root) == Root(parent, d)
        decreases root
      {
        RootFacts(parent, root);
        DescendingStep(parent, root);
        root := parent[root];
      }
      RootOfRoot(parent, root);
    }

    /** Points every node on the way from d at the root. */
    method Compress(d: Node, root: Node)
      requires Valid() && d in parent && root in parent && parent[root] == root && Root(parent, d) == root
      modifies this`parent
      ensures Valid() && parent.Keys == old(parent).Keys && Unmoved(old(parent), parent)
      ensures root in parent && parent[root] == root
    {
      hide Represents, Root, Descending, Unmoved;
      ghost var before := parent;
      var cur := d;
      UnmovedSelf(parent);
      while cur != root
        invariant Descending(parent) && parent.Keys == before.Keys && cur in parent && Unmoved(before, parent)
        invariant Root(parent, cur) == root && root in parent && parent[root] == root
        decreases cur
      {
        var next := parent[cur];
        CompressStep(before, parent, cur, root);
        parent := parent[cur := root];
        cur := next;
      }
      SameRoots(before, parent, pairs);
    }

    /** The root of d's class; compressing the path keeps every root. */
    method Find(d: Node) returns (root: Node)
      requires Valid()
      modifies this`parent
      ensures Valid() && root == Root(old(parent), d) && parent.Keys == old(parent).Keys + {d}
      ensures Unmoved(old(parent), parent) && root in parent && parent[root] == root
    {
      hide Represents, Root, Descending, Unmoved;
      if d !in parent {
        ghost var before := parent;
        NewIsAlone(parent, d);
        parent := parent[d := d];
        SameRoots(before, parent, pairs);
        return d;
      }
      root := Climb(d);
      Compress(d, root);
    }

    lemma DescendingStep(p: Parents, c: Node)
      requires Descending(p) && c in p
      ensures p[c] in p && p[c] <= c
    {
    }

    lemma UnmovedSelf(p: Parents)
      ensures Unmoved(p, p)
    {
    }

    lemma UnmovedAt(p: Parents, q: Parents, x: Node)
      requires Unmoved(p, q)
      ensures Root(q, x) == Root(p, x)
    {
    }

    lemma CompressStep(before: Parents, p: Parents, cur: Node, root: Node)
      requires Descending(p) && cur in p && root in p && p[root] == root && Root(p, cur) == root && cur != root
      requires Unmoved(before, p)
      ensures var q := p[cur := root];
        && Descending(q) && Unmoved(before, q) && Root(q, p[cur]) == root && q[root] == root
        && p[cur] < cur && p[cur] in q
    {
      RootFacts(p, cur);
      forall x ensures Root(p[cur := root], x) == Root(p, x) { CompressKeepsRoots(p, cur, x); }
    }

    lemma NewIsAlone(p: Parents, d: Node)
      requires Descending(p) && d !in p
      ensures Descending(p[d := d]) && Root(p, d) == d && Unmoved(p, p[d := d])
    {
      forall x ensures Root(p[d := d], x) == Root(p, x) { NewKeepsRoot(p, d, x); }
    }

    lemma {:induction false} NewKeepsRoot(p: Parents, d: Node, x: Node)
      requires Descending(p) && d !in p
      ensures Root(p[d := d], x) == Root(p, x)
      decreases x
    {
      if x in p && p[x] < x { NewKeepsRoot(p, d, p[x]); }
    }

    lemma RootOfRoot(p: Parents, r: Node)
      requires r in p && p[r] == r
      ensures Root(p, r) == r
    {
    }

    lemma SameRoots(p: Parents, q: Parents, pairs: seq<Pair>)
      requires Represents(p, pairs) && Unmoved(p, q)
      ensures Represents(q, pairs)
    {
      hide Root, Linked;
    }

    /** Declares a and b equivalent; the lesser root becomes the root of both. */
    method Union(a: Node, b: Node)
      requires Valid()
      modifies this
      ensures Valid() && pairs == old(pairs) + [Pair(a, b)] && parent.Keys == old(parent).Keys + {a, b}
    {
      hide Represents, Root, Descending, Unmoved;
      var ra := Find(a);
      ghost var mid := parent;
      var rb := Find(b);
      UnmovedAt(mid, parent, a);
      UnmovedAt(mid, parent, b);
      UnmovedAt(old(parent), mid, a);
      RootFacts(parent, a);
      RootFacts(parent, b);
      pairs := pairs + [Pair(a, b)];
      if ra == rb {
        MergeRepresents(parent, parent, old(pairs), a, b);
        return;
      }
      if rb < ra { ra, rb := rb, ra; }
      LinkRepresents(parent, old(pairs), a, b, ra, rb);
      parent := parent[rb := ra];
    }

    lemma LinkRepresents(p: Parents, pairs: seq<Pair>, a: Node, b: Node, low: Node, high: Node)
      requires Descending(p) && Represents(p, pairs) && a in p && b in p && low in p && high in p && low < high
      requires p[low] == low && p[high] == high
      requires (low == Root(p, a) && high == Root(p, b)) || (low == Root(p, b) && high == Root(p, a))
      ensures Descending(p[high := low]) && Represents(p[high := low], pairs + [Pair(a, b)])
    {
      hide Represents, Root;
      forall d ensures Root(p[high := low], d) == if Root(p, d) == high then low else Root(p, d) {
        LinkMergesRoots(p, low, high, d);
      }
      MergeRepresents(p, p[high := low], pairs, a, b);
    }
  }

  /** The root of a class is its least member. */
  lemma RootIsLeast(p: Parents, pairs: seq<Pair>, d: Node)
    requires Descending(p) && Represents(p, pairs)
    ensures Linked(pairs, d, Root(p, d)) && forall x :: Linked(pairs, d, x) ==> Root(p, d) <= x
  {
    hide Linked;
    RootFacts(p, d);
    forall x | Linked(pairs, d, x) ensures Root(p, d) <= x {
      assert Root(p, d) == Root(p, x);
      RootFacts(p, x);
    }
  }

  /** The members of `order` whose class is c, in order. */
  function Select(order: seq<Node>, class_: map<Node, Node>, c: Node): seq<Node> {
    if order == [] then []
    else
      var last := order[|order| - 1];
      Select(order[..|order| - 1], class_, c) + (if last in class_ && class_[last] == c then [last] else [])
  }

  lemma {:induction false} SelectStable(order: seq<Node>, class_: map<Node, Node>, d: Node, root: Node, c: Node)
    requires d !in order
    ensures Select(order, class_[d := root], c) == Select(order, class_, c)
    decreases |order|
  {
    if order != [] { SelectStable(order[..|order| - 1], class_, d, root, c); }
  }

  /** The members of every class are listed in the view's order. */
  ghost predicate Listed(order: seq<Node>, class_: map<Node, Node>, members: map<Node, seq<Node>>) {
    forall c :: (if c in members then members[c] else []) == Select(order, class_, c)
  }

  lemma NothingListed()
    ensures Listed([], map[], map[])
  {
    forall c ensures Select([], map[], c) == [] { SelectNone(map[], c); }
  }

  lemma ListNext(order: seq<Node>, class_: map<Node, Node>, members: map<Node, seq<Node>>, d: Node, root: Node)
    requires Listed(order, class_, members) && d !in order
    ensures Listed(order + [d], class_[d := root], members[root := (if root in members then members[root] else []) + [d]])
  {
    hide Select;
    forall c ensures Select(order + [d], class_[d := root], c) == Select(order, class_, c) + (if root == c then [d] else []) {
      SelectStable(order, class_, d, root, c);
      SelectAppend(order, class_[d := root], d, c);
    }
  }

  /** The classes of a view: each entity's class is the least digest that the declared
      equivalences connect it to, in the view or not, and the members of a class are
      listed in the view's order. */
  method CloseEquivalences(equivalences: seq<Pair>, order: seq<Node>)
    returns (class_: map<Node, Node>, members: map<Node, seq<Node>>)
    requires Ascending(order)
    ensures class_.Keys == set d | d in order
    ensures forall d :: d in order ==> Linked(equivalences, d, class_[d]) && forall x :: Linked(equivalences, d, x) ==> class_[d] <= x
    ensures forall d, e :: d in order && e in order ==> (class_[d] == class_[e] <==> Linked(equivalences, d, e))
    ensures Listed(order, class_, members) && forall c :: c in members ==> members[c] != []
  {
    hide Represents, Root, Linked, Descending, Unmoved, Listed;
    var uf := new UnionFind();
    for i := 0 to |equivalences|
      invariant uf.Valid() && fresh(uf) && uf.pairs == equivalences[..i]
    {
      uf.Union(equivalences[i].a, equivalences[i].b);
      assert equivalences[..i + 1] == equivalences[..i] + [equivalences[i]];
    }
    assert equivalences[..|equivalences|] == equivalences;
    ghost var p := uf.parent;
    assert Descending(p) && Represents(p, equivalences);
    UnmovedRefl(p);
    class_, members := map[], map[];
    assert order[..0] == [];
    NothingListed();
    for i := 0 to |order|
      invariant uf.Valid() && fresh(uf) && Unmoved(p, uf.parent)
      invariant class_.Keys == set d | d in order[..i]
      invariant forall d :: d in class_ ==> class_[d] == Root(p, d)
      invariant Listed(order[..i], class_, members) && forall c :: c in members ==> members[c] != []
    {
      var d := order[i];
      var root := ClassOf(uf, d, p);
      assert order[..i + 1] == order[..i] + [d];
      assert d !in order[..i];
      ListNext(order[..i], class_, members, d, root);
      class_ := class_[d := root];
      members := members[root := (if root in members then members[root] else []) + [d]];
    }
    assert order[..|order|] == order;
    ClassesAreLeast(p, equivalences, class_);
  }

  /** The root of a digest; one no pair ever named is its own class. */
  method ClassOf(uf: UnionFind, d: Node, ghost p: Parents) returns (root: Node)
    requires uf.Valid() && Unmoved(p, uf.parent)
    modifies uf`parent
    ensures uf.Valid() && Unmoved(p, uf.parent) && root == Root(p, d)
  {
    hide Represents, Root, Descending, Unmoved;
    ghost var mid := uf.parent;
    UnmovedRefl(mid);
    if d in uf.parent {
      root := uf.Find(d);
      UnmovedTrans(p, mid, uf.parent, d);
    } else {
      root := d;
      UnmovedTrans(p, mid, mid, d);
      UnknownIsRoot(mid, d);
    }
  }

  /** Each node's class, read off the table, is the least node its own is connected to. */
  lemma ClassesAreLeast(p: Parents, pairs: seq<Pair>, class_: map<Node, Node>)
    requires Descending(p) && Represents(p, pairs) && forall d :: d in class_ ==> class_[d] == Root(p, d)
    ensures forall d :: d in class_ ==> Linked(pairs, d, class_[d]) && forall x :: Linked(pairs, d, x) ==> class_[d] <= x
    ensures forall d, e :: d in class_ && e in class_ ==> (class_[d] == class_[e] <==> Linked(pairs, d, e))
  {
    hide Represents, Root, Linked, Descending;
    forall d | d in class_ ensures Linked(pairs, d, class_[d]) && forall x :: Linked(pairs, d, x) ==> class_[d] <= x {
      RootIsLeast(p, pairs, d);
    }
    forall d, e | d in class_ && e in class_ ensures class_[d] == class_[e] <==> Linked(pairs, d, e) {
      SameClass(p, pairs, d, e);
    }
  }

  lemma UnmovedTrans(p: Parents, mid: Parents, q: Parents, d: Node)
    requires Unmoved(p, mid) && Unmoved(mid, q)
    ensures Unmoved(p, q) && Root(mid, d) == Root(p, d)
  {
    hide Root;
  }

  lemma UnmovedRefl(p: Parents)
    ensures Unmoved(p, p)
  {
  }

  lemma SelectNone(class_: map<Node, Node>, c: Node)
    ensures Select([], class_, c) == []
  {
  }

  lemma SelectAppend(order: seq<Node>, class_: map<Node, Node>, d: Node, c: Node)
    requires d in class_
    ensures Select(order + [d], class_, c) == Select(order, class_, c) + (if class_[d] == c then [d] else [])
  {
    assert (order + [d])[..|order|] == order;
  }

  lemma UnknownIsRoot(p: Parents, d: Node)
    requires d !in p
    ensures Root(p, d) == d
  {
  }

  lemma SameClass(p: Parents, pairs: seq<Pair>, d: Node, e: Node)
    requires Represents(p, pairs)
    ensures Root(p, d) == Root(p, e) <==> Linked(pairs, d, e)
  {
    hide Root, Linked;
  }
}
