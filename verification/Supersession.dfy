/** The supersession graph of a view, its cycles, and current versions. */
module Supersession {
  import opened Graphs
  import opened Cycles
  import Sorting

  // ---- the cycles of a graph ------------------------------------------------------

  ghost predicate FirstsAscending(list: seq<seq<Node>>) {
    && (forall k :: 0 <= k < |list| ==> list[k] != [])
    && (forall i, j :: 0 <= i < j < |list| ==> list[i][0] < list[j][0])
  }

  /** No two components share a member. */
  ghost predicate Disjoint(found: seq<seq<Node>>) {
    && (forall k :: 0 <= k < |found| ==> found[k] != [])
    && (forall j, k, x :: 0 <= j < |found| && 0 <= k < |found| && x in found[j] && x in found[k] ==> j == k)
  }

  method SortComponents(found: seq<seq<Node>>) returns (r: seq<seq<Node>>)
    requires Disjoint(found)
    ensures FirstsAscending(r) && |r| == |found| && forall x :: x in r <==> x in found
  {
    Sorting.LexLeqPreorder();
    r := Sorting.Sort(found, Sorting.LexLeq);
    Sorting.SameElements(r, found);
    SortedFirsts(found, r);
  }

  /** Lists without a common member are compared by their first members. */
  lemma SortedFirsts(found: seq<seq<Node>>, r: seq<seq<Node>>)
    requires Disjoint(found) && multiset(r) == multiset(found) && Sorting.Sorted(r, Sorting.LexLeq)
    ensures FirstsAscending(r)
  {
    forall i, j | 0 <= i < j < |found| ensures found[i] != found[j] {
      assert found[i][0] in found[i];
    }
    Sorting.StillNoRepeats(found, r);
    Sorting.SameElements(r, found);
    forall k | 0 <= k < |r| ensures r[k] != [] { assert r[k] in found; }
    forall i, j | 0 <= i < j < |r| ensures r[i][0] < r[j][0] {
      assert r[i] in found && r[j] in found && r[i] != r[j] && r[i] != [] && r[j] != [];
      var m :| 0 <= m < |found| && found[m] == r[i];
      var n :| 0 <= n < |found| && found[n] == r[j];
      assert r[i][0] in found[m] && r[j][0] in found[n];
      assert Sorting.LexLeq(r[i], r[j]);
    }
  }

  /** Exactly the components of the graph that have a cycle, each ascending, in
      ascending order: a node is in one of them iff it lies on a cycle, and two nodes
      are in the same one iff each reaches the other. */
  ghost predicate AreCycles(g: Adjacency, nodes: set<Node>, r: seq<seq<Node>>) {
    && FirstsAscending(r)
    && (forall k :: 0 <= k < |r| ==> Ascending(r[k]) && forall x, y :: x in r[k] ==> (y in r[k] <==> Mutual(g, x, y)))
    && (forall x :: InSome(r, x) <==> x in nodes && OnCycle(g, x))
  }

  ghost predicate InSome(r: seq<seq<Node>>, x: Node) { exists c :: c in r && x in c }

  lemma FinishedIsAll(g: Adjacency, info: Table, stack: seq<Node>, nextID: nat, found: seq<seq<Node>>)
    requires Inv(g, info, stack, nextID, {}, found)
    ensures forall x :: x in info ==> Off(info, x)
  {
    hide FoundOk, Reach;
    assert forall x :: On(info, x) ==> Returns(g, info, {}, x);
    assert forall x :: x in info ==> On(info, x) || Off(info, x);
  }

  lemma FoundAreCycles(g: Adjacency, info: Table, nodes: set<Node>, found: seq<seq<Node>>, r: seq<seq<Node>>)
    requires FoundOk(g, info, found) && info.Keys == nodes && (forall x :: x in info ==> Off(info, x))
    requires FirstsAscending(r) && forall c :: c in r <==> c in found
    ensures AreCycles(g, nodes, r)
  {
    hide OnCycle, Mutual;
    forall k | 0 <= k < |r| ensures IsComponent(g, r[k]) {
      assert r[k] in found;
    }
    forall x ensures InSome(r, x) <==> x in nodes && OnCycle(g, x) {
      if InSome(r, x) {
        var c :| c in r && x in c;
        var k :| 0 <= k < |found| && found[k] == c;
      }
      if x in nodes && OnCycle(g, x) {
        var k :| 0 <= k < |found| && x in found[k];
        assert found[k] in r;
      }
    }
  }

  method FindCycles(nodes: seq<Node>, adjacency: Adjacency) returns (r: seq<seq<Node>>)
    requires Inside(adjacency, (set x | x in nodes))
    ensures AreCycles(adjacency, (set x | x in nodes), r)
  {
    hide Inv, FoundOk, Inside, AreCycles, FirstsAscending, Disjoint;
    ghost var all := set x | x in nodes;
    var t := new Tarjan(adjacency);
    for i := 0 to |nodes|
      invariant t.Valid({}) && fresh(t) && t.adjacency == adjacency && t.info.Keys <= all
      invariant forall j :: 0 <= j < i ==> nodes[j] in t.info
    {
      if nodes[i] !in t.info {
        FinishedIsAll(adjacency, t.info, t.stack, t.nextID, t.found);
        ghost var before := t.info;
        t.Visit(nodes[i], all, {});
        KeptKeys(before, t.info);
      }
    }
    FinishedIsAll(adjacency, t.info, t.stack, t.nextID, t.found);
    FoundIsDisjoint(adjacency, t.info, t.stack, t.nextID, t.found);
    assert t.info.Keys == all;
    r := SortComponents(t.found);
    FoundAreCycles(adjacency, t.info, all, t.found, r);
  }

  lemma FoundIsDisjoint(g: Adjacency, info: Table, stack: seq<Node>, nextID: nat, found: seq<seq<Node>>)
    requires Inv(g, info, stack, nextID, {}, found)
    ensures FoundOk(g, info, found) && Disjoint(found)
  {
    hide ReachOk, ColorsOk, StackOk, OnCycle, Mutual;
  }

  // ---- the edges of a view --------------------------------------------------------

  /** A claim that molecule a supersedes molecule b, the meta-molecule that makes it and
      the authors who published that. */
  datatype Claim = Claim(a: Node, b: Node, meta: Node, authors: set<Node>)

  /** The claim is between classes x and y of the view. */
  predicate Declares(cl: Claim, class_: map<Node, Node>, x: Node, y: Node) {
    cl.a in class_ && cl.b in class_ && class_[cl.a] == x && class_[cl.b] == y
  }

  /** Some declaration has class x supersede class y. */
  ghost predicate Edge(claims: seq<Claim>, class_: map<Node, Node>, x: Node, y: Node) {
    exists cl :: cl in claims && Declares(cl, class_, x, y)
  }

  lemma EdgeAppend(claims: seq<Claim>, cl: Claim, class_: map<Node, Node>, x: Node, y: Node)
    ensures Edge(claims + [cl], class_, x, y) <==> Edge(claims, class_, x, y) || Declares(cl, class_, x, y)
  {
    if Declares(cl, class_, x, y) { assert cl in claims + [cl]; }
    if Edge(claims, class_, x, y) {
      var c :| c in claims && Declares(c, class_, x, y);
      assert c in claims + [cl];
    }
  }

  /** The graph lists, for each node, exactly the ends of its edges, ascending. */
  ghost predicate Lists(g: Adjacency, claims: seq<Claim>, class_: map<Node, Node>, forward: bool) {
    && (forall x :: Ascending(Succ(g, x)))
    && (forall x, y :: y in Succ(g, x) <==> if forward then Edge(claims, class_, x, y) else Edge(claims, class_, y, x))
  }

  /** Only nodes with edges are entered. */
  ghost predicate NoIdle(g: Adjacency) { forall x :: x in g ==> g[x] != [] }

  function Link(g: Adjacency, x: Node, y: Node): Adjacency
    requires Ascending(Succ(g, x))
  {
    g[x := InsertDigest(Succ(g, x), y)]
  }

  lemma LinkLists(g: Adjacency, claims: seq<Claim>, class_: map<Node, Node>, forward: bool, cl: Claim, x: Node, y: Node)
    requires Lists(g, claims, class_, forward)
    requires if forward then Declares(cl, class_, x, y) else Declares(cl, class_, y, x)
    ensures NoIdle(g) ==> NoIdle(Link(g, x, y))
    ensures Lists(Link(g, x, y), claims + [cl], class_, forward)
  {
    hide Edge, Ascending;
    var next := Link(g, x, y);
    forall u ensures Ascending(Succ(next, u)) { assert Ascending(Succ(g, u)); }
    forall u, v ensures v in Succ(next, u) <==> if forward then Edge(claims + [cl], class_, u, v) else Edge(claims + [cl], class_, v, u) {
      if forward { EdgeAppend(claims, cl, class_, u, v); } else { EdgeAppend(claims, cl, class_, v, u); }
    }
  }

  lemma SkipLists(g: Adjacency, claims: seq<Claim>, class_: map<Node, Node>, forward: bool, cl: Claim)
    requires Lists(g, claims, class_, forward) && (cl.a !in class_ || cl.b !in class_)
    ensures Lists(g, claims + [cl], class_, forward)
  {
    hide Edge, Ascending;
    forall u, v ensures Edge(claims + [cl], class_, u, v) <==> Edge(claims, class_, u, v) {
      EdgeAppend(claims, cl, class_, u, v);
    }
  }

  /** Both ends of every edge are listed. */
  ghost predicate Covers(claims: seq<Claim>, class_: map<Node, Node>, nodes: seq<Node>) {
    forall x, y :: Edge(claims, class_, x, y) ==> x in nodes && y in nodes
  }

  lemma CoversAppend(claims: seq<Claim>, cl: Claim, class_: map<Node, Node>, before: seq<Node>, nodes: seq<Node>)
    requires Covers(claims, class_, before) && forall x :: x in before ==> x in nodes
    requires cl.a in class_ && cl.b in class_ ==> class_[cl.a] in nodes && class_[cl.b] in nodes
    ensures Covers(claims + [cl], class_, nodes)
  {
    hide Edge;
    forall x, y | Edge(claims + [cl], class_, x, y) ensures x in nodes && y in nodes {
      EdgeAppend(claims, cl, class_, x, y);
    }
  }

  // ---- what stands behind an edge -------------------------------------------------

  /** An edge of the graph, and the meta-molecules and authors that declare it. */
  datatype Arc = Arc(from: Node, to: Node)

  datatype Backing = Backing(meta: set<Node>, declarers: set<Node>)

  function MetaOf(claims: seq<Claim>, class_: map<Node, Node>, e: Arc): set<Node> {
    set cl | cl in claims && Declares(cl, class_, e.from, e.to) :: cl.meta
  }

  function AuthorsOf(claims: seq<Claim>, class_: map<Node, Node>, e: Arc): set<Node> {
    set cl, x | cl in claims && Declares(cl, class_, e.from, e.to) && x in cl.authors :: x
  }

  /** Exactly the declared edges are on record, each with all that declares it. */
  ghost predicate Recorded(claims: seq<Claim>, class_: map<Node, Node>, record: map<Arc, Backing>) {
    && (forall e :: e in record <==> Edge(claims, class_, e.from, e.to))
    && (forall e :: e in record ==> record[e] == Backing(MetaOf(claims, class_, e), AuthorsOf(claims, class_, e)))
  }

  function Enter(record: map<Arc, Backing>, e: Arc, cl: Claim): map<Arc, Backing> {
    var was := if e in record then record[e] else Backing({}, {});
    record[e := Backing(was.meta + {cl.meta}, was.declarers + cl.authors)]
  }

  lemma OfAppend(claims: seq<Claim>, cl: Claim, class_: map<Node, Node>, e: Arc)
    ensures MetaOf(claims + [cl], class_, e) == MetaOf(claims, class_, e) + (if Declares(cl, class_, e.from, e.to) then {cl.meta} else {})
    ensures AuthorsOf(claims + [cl], class_, e) == AuthorsOf(claims, class_, e) + (if Declares(cl, class_, e.from, e.to) then cl.authors else {})
  {
    assert forall x :: x in claims + [cl] <==> x in claims || x == cl;
    forall x | Declares(cl, class_, e.from, e.to) && x in cl.authors ensures x in AuthorsOf(claims + [cl], class_, e) {
      assert cl in claims + [cl];
    }
    if Declares(cl, class_, e.from, e.to) { assert cl in claims + [cl]; }
  }

  lemma NoneOf(claims: seq<Claim>, class_: map<Node, Node>, e: Arc)
    requires !Edge(claims, class_, e.from, e.to)
    ensures MetaOf(claims, class_, e) == {} && AuthorsOf(claims, class_, e) == {}
  {
  }

  lemma EnterRecords(record: map<Arc, Backing>, claims: seq<Claim>, class_: map<Node, Node>, cl: Claim, x: Node, y: Node)
    requires Recorded(claims, class_, record) && Declares(cl, class_, x, y)
    ensures Recorded(claims + [cl], class_, Enter(record, Arc(x, y), cl))
  {
    hide Edge, MetaOf, AuthorsOf;
    var next := Enter(record, Arc(x, y), cl);
    forall e: Arc ensures e in next <==> Edge(claims + [cl], class_, e.from, e.to) { EdgeAppend(claims, cl, class_, e.from, e.to); }
    forall e | e in next ensures next[e] == Backing(MetaOf(claims + [cl], class_, e), AuthorsOf(claims + [cl], class_, e)) {
      OfAppend(claims, cl, class_, e);
      if e !in record { NoneOf(claims, class_, e); }
    }
  }

  lemma SkipRecords(record: map<Arc, Backing>, claims: seq<Claim>, class_: map<Node, Node>, cl: Claim)
    requires Recorded(claims, class_, record) && (cl.a !in class_ || cl.b !in class_)
    ensures Recorded(claims + [cl], class_, record)
  {
    hide Edge, MetaOf, AuthorsOf;
    forall e: Arc ensures e in record <==> Edge(claims + [cl], class_, e.from, e.to) { EdgeAppend(claims, cl, class_, e.from, e.to); }
    forall e | e in record ensures record[e] == Backing(MetaOf(claims + [cl], class_, e), AuthorsOf(claims + [cl], class_, e)) {
      OfAppend(claims, cl, class_, e);
    }
  }

  // ---- surfaced cycles ----------------------------------------------------------------

  /** A cycle put before the application: the entities of its classes, and the
      meta-molecules and authors behind the edges inside it. */
  datatype CycleConflict = CycleConflict(molecules: seq<Node>, meta: set<Node>, declarers: set<Node>)

  /** The claim is between classes of the list. */
  predicate Within(cl: Claim, class_: map<Node, Node>, classes: seq<Node>) {
    cl.a in class_ && cl.b in class_ && class_[cl.a] in classes && class_[cl.b] in classes
  }

  ghost predicate Surfaces(k: CycleConflict, claims: seq<Claim>, class_: map<Node, Node>, members: Members, classes: seq<Node>) {
    && Ascending(k.molecules) && (forall m :: m in k.molecules <==> exists c :: c in classes && m in MembersOf(members, c))
    && k.meta == (set cl | cl in claims && Within(cl, class_, classes) :: cl.meta)
    && k.declarers == (set cl, x | cl in claims && Within(cl, class_, classes) && x in cl.authors :: x)
  }

  predicate Inner(e: Arc, classes: seq<Node>) { e.from in classes && e.to in classes }

  /** The edges inside a cycle carry exactly what the claims inside it do. */
  lemma InnerEdges(claims: seq<Claim>, class_: map<Node, Node>, record: map<Arc, Backing>, classes: seq<Node>, meta: set<Node>, declarers: set<Node>)
    requires Recorded(claims, class_, record)
    requires forall m :: m in meta <==> exists e :: e in record && Inner(e, classes) && m in record[e].meta
    requires forall x :: x in declarers <==> exists e :: e in record && Inner(e, classes) && x in record[e].declarers
    ensures meta == (set cl | cl in claims && Within(cl, class_, classes) :: cl.meta)
    ensures declarers == (set cl, x | cl in claims && Within(cl, class_, classes) && x in cl.authors :: x)
  {
    forall cl | cl in claims && Within(cl, class_, classes)
      ensures var e := Arc(class_[cl.a], class_[cl.b]);
        e in record && Inner(e, classes) && cl.meta in record[e].meta && forall x :: x in cl.authors ==> x in record[e].declarers
    {
      var e := Arc(class_[cl.a], class_[cl.b]);
      assert Declares(cl, class_, e.from, e.to);
    }
    hide Edge;
    forall m | m in meta ensures exists cl :: cl in claims && Within(cl, class_, classes) && cl.meta == m {
      var e :| e in record && Inner(e, classes) && m in record[e].meta;
      var cl :| cl in claims && Declares(cl, class_, e.from, e.to) && cl.meta == m;
      assert Within(cl, class_, classes);
    }
    forall x | x in declarers ensures exists cl :: cl in claims && Within(cl, class_, classes) && x in cl.authors {
      var e :| e in record && Inner(e, classes) && x in record[e].declarers;
      var cl :| cl in claims && Declares(cl, class_, e.from, e.to) && x in cl.authors;
      assert Within(cl, class_, classes);
    }
  }

  /** Puts one cycle before the application. */
  method Surface(ghost claims: seq<Claim>, ghost class_: map<Node, Node>, arcs: seq<Arc>, record: map<Arc, Backing>, members: Members,
                 classes: seq<Node>)
    returns (k: CycleConflict)
    requires Recorded(claims, class_, record) && forall e :: e in arcs <==> e in record
    ensures Surfaces(k, claims, class_, members, classes)
  {
    hide Recorded, Ascending;
    var meta, declarers: set<Node> := {}, {};
    for i := 0 to |arcs|
      invariant forall m :: m in meta <==> exists e :: e in arcs[..i] && Inner(e, classes) && m in record[e].meta
      invariant forall x :: x in declarers <==> exists e :: e in arcs[..i] && Inner(e, classes) && x in record[e].declarers
    {
      assert forall e :: e in arcs[..i + 1] <==> e in arcs[..i] || e == arcs[i];
      assert arcs[i] in arcs;
      if Inner(arcs[i], classes) {
        meta, declarers := meta + record[arcs[i]].meta, declarers + record[arcs[i]].declarers;
      }
    }
    assert arcs[..|arcs|] == arcs;
    InnerEdges(claims, class_, record, classes, meta, declarers);
    var molecules: seq<Node> := [];
    NothingAscends();
    for i := 0 to |classes|
      invariant Ascending(molecules) && forall m :: m in molecules <==> exists c :: c in classes[..i] && m in MembersOf(members, c)
    {
      molecules := CollectMembers(MembersOf(members, classes[i]), molecules);
      assert forall c :: c in classes[..i + 1] <==> c in classes[..i] || c == classes[i];
    }
    assert classes[..|classes|] == classes;
    k := CycleConflict(molecules, meta, declarers);
  }

  lemma NothingAscends()
    ensures Ascending([])
  {
  }

  /** The edges in both directions, their ends, and what stands behind each. */
  method BuildGraph(claims: seq<Claim>, class_: map<Node, Node>)
    returns (supersedes: Adjacency, supersededBy: Adjacency, nodes: seq<Node>, arcs: seq<Arc>, record: map<Arc, Backing>)
    ensures Lists(supersedes, claims, class_, true) && Lists(supersededBy, claims, class_, false)
    ensures Ascending(nodes) && Covers(claims, class_, nodes)
    ensures Recorded(claims, class_, record) && forall e :: e in arcs <==> e in record
    ensures NoIdle(supersedes) && NoIdle(supersededBy)
  {
    hide Edge, Ascending, Lists, Covers, Recorded;
    supersedes, supersededBy, nodes, arcs, record := map[], map[], [], [], map[];
    EmptyLists(class_);
    for i := 0 to |claims|
      invariant Lists(supersedes, claims[..i], class_, true) && Lists(supersededBy, claims[..i], class_, false)
      invariant Ascending(nodes) && Covers(claims[..i], class_, nodes)
      invariant Recorded(claims[..i], class_, record) && forall e :: e in arcs <==> e in record
      invariant NoIdle(supersedes) && NoIdle(supersededBy)
    {
      var cl := claims[i];
      ghost var before := nodes;
      assert claims[..i + 1] == claims[..i] + [cl];
      if cl.a in class_ && cl.b in class_ {
        var x, y := class_[cl.a], class_[cl.b];
        nodes := InsertDigest(nodes, x);
        nodes := InsertDigest(nodes, y);
        EnterRecords(record, claims[..i], class_, cl, x, y);
        if Arc(x, y) !in record {
          arcs := arcs + [Arc(x, y)];
        }
        record := Enter(record, Arc(x, y), cl);
        LinkLists(supersedes, claims[..i], class_, true, cl, x, y);
        LinkLists(supersededBy, claims[..i], class_, false, cl, y, x);
        ListsAscending(supersedes, claims[..i], class_, true, x);
        ListsAscending(supersededBy, claims[..i], class_, false, y);
        supersedes := Link(supersedes, x, y);
        supersededBy := Link(supersededBy, y, x);
      } else {
        SkipLists(supersedes, claims[..i], class_, true, cl);
        SkipLists(supersededBy, claims[..i], class_, false, cl);
        SkipRecords(record, claims[..i], class_, cl);
      }
      CoversAppend(claims[..i], cl, class_, before, nodes);
    }
    assert claims[..|claims|] == claims;
  }

  /** Builds the supersession graph in both directions, and surfaces its cycles. `class_`
      maps each entity of the view to its equivalence class; a claim naming anything else
      has no effect. */
  method ApplySupersession(claims: seq<Claim>, class_: map<Node, Node>, members: Members)
    returns (supersedes: Adjacency, supersededBy: Adjacency, cycles: seq<seq<Node>>, conflicts: seq<CycleConflict>)
    ensures Lists(supersedes, claims, class_, true) && Lists(supersededBy, claims, class_, false)
    ensures FirstsAscending(cycles) && forall x :: InSome(cycles, x) <==> OnCycle(supersedes, x)
    ensures forall k :: 0 <= k < |cycles| ==>
              Ascending(cycles[k]) && forall x, y :: x in cycles[k] ==> (y in cycles[k] <==> Mutual(supersedes, x, y))
    ensures NoIdle(supersedes) && NoIdle(supersededBy)
    ensures |conflicts| == |cycles| && forall k :: 0 <= k < |cycles| ==> Surfaces(conflicts[k], claims, class_, members, cycles[k])
  {
    hide Edge, Ascending, Lists, AreCycles, Covers, Recorded, Surfaces, FirstsAscending, Enter;
    var nodes: seq<Node>, arcs: seq<Arc>, record: map<Arc, Backing>;
    supersedes, supersededBy, nodes, arcs, record := BuildGraph(claims, class_);
    EdgesInside(supersedes, claims, class_, nodes);
    cycles := FindCycles(nodes, supersedes);
    CyclesOfEdges(supersedes, claims, class_, nodes, cycles);
    conflicts := [];
    for i := 0 to |cycles|
      invariant |conflicts| == i && forall k :: 0 <= k < i ==> Surfaces(conflicts[k], claims, class_, members, cycles[k])
    {
      var k := Surface(claims, class_, arcs, record, members, cycles[i]);
      conflicts := conflicts + [k];
    }
  }

  lemma EmptyLists(class_: map<Node, Node>)
    ensures Lists(map[], [], class_, true) && Lists(map[], [], class_, false) && Ascending([])
    ensures Covers([], class_, []) && Recorded([], class_, map[])
  {
  }

  lemma ListsAscending(g: Adjacency, claims: seq<Claim>, class_: map<Node, Node>, forward: bool, x: Node)
    requires Lists(g, claims, class_, forward)
    ensures Ascending(Succ(g, x))
  {
  }

  lemma EdgesInside(g: Adjacency, claims: seq<Claim>, class_: map<Node, Node>, nodes: seq<Node>)
    requires Lists(g, claims, class_, true)
    requires Covers(claims, class_, nodes)
    ensures Inside(g, (set x | x in nodes))
  {
    hide Edge, Ascending;
  }

  lemma CyclesOfEdges(g: Adjacency, claims: seq<Claim>, class_: map<Node, Node>, nodes: seq<Node>, cycles: seq<seq<Node>>)
    requires Lists(g, claims, class_, true) && AreCycles(g, (set x | x in nodes), cycles)
    requires Covers(claims, class_, nodes)
    ensures FirstsAscending(cycles) && forall x :: InSome(cycles, x) <==> OnCycle(g, x)
    ensures forall k :: 0 <= k < |cycles| ==>
              Ascending(cycles[k]) && forall x, y :: x in cycles[k] ==> (y in cycles[k] <==> Mutual(g, x, y))
  {
    hide Edge, Ascending, InSome, Reach;
    forall x | OnCycle(g, x) ensures x in nodes {
      var y :| y in Succ(g, x) && Reach(g, y, x);
    }
  }

  // ---- current versions -----------------------------------------------------------

  /** Read backwards, a path is a path of the converse graph. */
  lemma {:induction false} PathReverses(f: Adjacency, b: Adjacency, p: seq<Node>)
    requires Path(f, p) && forall x, y :: y in Succ(f, x) <==> x in Succ(b, y)
    ensures Reach(b, p[|p| - 1], p[0])
    decreases |p|
  {
    if |p| == 1 {
      ReachSelf(b, p[0]);
    } else {
      assert p[1] in Succ(f, p[0]);
      assert Path(f, p[1..]);
      PathReverses(f, b, p[1..]);
      ReachEdge(b, p[1], p[0]);
      ReachTrans(b, p[|p| - 1], p[1], p[0]);
    }
  }

  /** A cycle of one direction, read backwards, is one of the other. */
  lemma CycleTurns(f: Adjacency, b: Adjacency, x: Node)
    requires forall x, y :: y in Succ(f, x) <==> x in Succ(b, y)
    requires OnCycle(b, x)
    ensures OnCycle(f, x)
  {
    var y :| y in Succ(b, x) && Reach(b, y, x);
    var p :| Path(b, p) && p[0] == y && p[|p| - 1] == x;
    PathReverses(b, f, p);
    if |p| == 1 {
      ReachSelf(f, x);
    } else {
      assert p[1] in Succ(b, p[0]);
      ReachEdge(f, y, x);
    }
    var q :| Path(f, q) && q[0] == x && q[|q| - 1] == y;
    if |q| == 1 {
      assert x in Succ(f, x);
    } else {
      assert q[1] in Succ(f, q[0]);
      assert Path(f, q[1..]) && q[1..][0] == q[1] && q[1..][|q[1..]| - 1] == y;
      ReachEdge(f, y, x);
      ReachTrans(f, q[1], y, x);
    }
  }

  /** The two directions have the same cycles. */
  lemma CyclesReverse(f: Adjacency, b: Adjacency, x: Node)
    requires forall x, y :: y in Succ(f, x) <==> x in Succ(b, y)
    ensures OnCycle(f, x) <==> OnCycle(b, x)
  {
    hide OnCycle;
    if OnCycle(b, x) { CycleTurns(f, b, x); }
    if OnCycle(f, x) { CycleTurns(b, f, x); }
  }

  type Members = map<Node, seq<Node>>

  function MembersOf(members: Members, c: Node): seq<Node> { if c in members then members[c] else [] }

  /** c is superseded by nothing and m is one of its members. */
  predicate LastWord(g: Adjacency, members: Members, c: Node, m: Node) { Succ(g, c) == [] && m in MembersOf(members, c) }

  /** The last words among the visited classes, ascending. */
  ghost predicate Collected(g: Adjacency, members: Members, visited: set<Node>, out: seq<Node>) {
    Ascending(out) && forall m :: m in out <==> exists c :: c in visited && LastWord(g, members, c, m)
  }

  /** Every visited class but those under way has only visited successors. */
  ghost predicate Explored(g: Adjacency, visited: set<Node>, grays: set<Node>) {
    forall x, y :: x in visited && x !in grays && y in Succ(g, x) ==> y in visited
  }

  ghost predicate AllReachable(g: Adjacency, start: Node, visited: set<Node>) {
    forall x :: x in visited ==> Reach(g, start, x)
  }

  method CollectMembers(list: seq<Node>, out: seq<Node>) returns (r: seq<Node>)
    requires Ascending(out)
    ensures Ascending(r) && forall m :: m in r <==> m in out || m in list
  {
    r := out;
    for i := 0 to |list|
      invariant Ascending(r) && forall m :: m in r <==> m in out || m in list[..i]
    {
      r := InsertDigest(r, list[i]);
      assert list[..i + 1] == list[..i] + [list[i]];
    }
    assert list[..|list|] == list;
  }

  lemma CollectedGrows(g: Adjacency, members: Members, visited: set<Node>, out: seq<Node>, c: Node, next: seq<Node>)
    requires Collected(g, members, visited, out) && Ascending(next)
    requires forall m :: m in next <==> m in out || LastWord(g, members, c, m)
    ensures Collected(g, members, visited + {c}, next)
  {
    hide Ascending, LastWord;
    forall m ensures m in next <==> exists x :: x in visited + {c} && LastWord(g, members, x, m) {
      if LastWord(g, members, c, m) { assert c in visited + {c}; }
      if x :| x in visited && LastWord(g, members, x, m) { assert x in visited + {c}; }
    }
  }

  /** The depth-first walk from one class. */
  method Walk(g: Adjacency, members: Members, start: Node, c: Node, visited: set<Node>, out: seq<Node>, ghost nodes: set<Node>, ghost grays: set<Node>)
    returns (seen: set<Node>, all: seq<Node>)
    requires Inside(g, nodes) && visited <= nodes && c in nodes && Reach(g, start, c)
    requires Collected(g, members, visited, out) && Explored(g, visited, grays) && AllReachable(g, start, visited)
    ensures visited + {c} <= seen <= nodes
    ensures Collected(g, members, seen, all) && Explored(g, seen, grays) && AllReachable(g, start, seen)
    decreases |nodes - visited|
  {
    hide Collected, Reach, Inside;
    if c in visited {
      return visited, out;
    }
    seen := visited + {c};
    var next := Succ(g, c);
    if next == [] {
      assert Ascending(out) by { CollectedAscending(g, members, visited, out); }
      all := CollectMembers(MembersOf(members, c), out);
      CollectedGrows(g, members, visited, out, c, all);
      return;
    }
    all := out;
    CollectedAscending(g, members, visited, out);
    CollectedGrows(g, members, visited, out, c, out);
    for i := 0 to |next|
      invariant visited + {c} <= seen <= nodes
      invariant Collected(g, members, seen, all) && Explored(g, seen, grays + {c}) && AllReachable(g, start, seen)
      invariant forall j :: 0 <= j < i ==> next[j] in seen
    {
      InsideStep(g, nodes, c, next[i]);
      ReachEdge(g, c, next[i]);
      ReachTrans(g, start, c, next[i]);
      FewerLeft(nodes, visited, seen, c);
      seen, all := Walk(g, members, start, next[i], seen, all, nodes, grays + {c});
    }
  }

  lemma CollectedAscending(g: Adjacency, members: Members, visited: set<Node>, out: seq<Node>)
    requires Collected(g, members, visited, out)
    ensures Ascending(out)
  {
  }

  lemma InsideStep(g: Adjacency, nodes: set<Node>, x: Node, y: Node)
    requires Inside(g, nodes) && x in nodes && y in Succ(g, x)
    ensures y in nodes
  {
  }

  /** The current versions of a class: the members of exactly those classes reached by
      following supersession forward that nothing supersedes. */
  method Current(supersededBy: Adjacency, members: Members, class_: Node, ghost nodes: set<Node>) returns (out: seq<Node>)
    requires Inside(supersededBy, nodes) && class_ in nodes
    ensures Ascending(out)
    ensures forall m :: m in out <==> exists c :: Reach(supersededBy, class_, c) && LastWord(supersededBy, members, c, m)
  {
    hide LastWord, Inside;
    ReachSelf(supersededBy, class_);
    var seen;
    seen, out := Walk(supersededBy, members, class_, class_, {}, [], nodes, {});
    forall c ensures c in seen <==> Reach(supersededBy, class_, c) {
      if Reach(supersededBy, class_, c) { ReachStaysIn(supersededBy, seen, class_, c); }
    }
  }

  /** In a finite graph, following edges ends at a node without any or meets a cycle. */
  lemma {:induction false} SinkOrCycle(g: Adjacency, reached: set<Node>, x: Node) returns (y: Node)
    requires forall z :: z in reached <==> Reach(g, x, z)
    ensures Reach(g, x, y) && (Succ(g, y) == [] || OnCycle(g, y))
    decreases |reached|
  {
    ReachSelf(g, x);
    if Succ(g, x) == [] || OnCycle(g, x) { return x; }
    var n := Succ(g, x)[0];
    ReachEdge(g, x, n);
    var rest := set z | z in reached && Reach(g, n, z);
    forall z | Reach(g, n, z) ensures z in rest { ReachTrans(g, x, n, z); }
    assert x in reached && x !in rest;
    SubsetSize(rest, reached - {x});
    y := SinkOrCycle(g, rest, n);
    ReachTrans(g, x, n, y);
  }

  /** If a class has no current version, some class that supersedes it, directly or
      through others, is in one of the cycles surfaced. */
  lemma NoCurrentVersionMeansCycle(claims: seq<Claim>, classOf: map<Node, Node>, supersedes: Adjacency, supersededBy: Adjacency,
                                   cycles: seq<seq<Node>>, members: Members, class_: Node, nodes: set<Node>)
    requires Lists(supersedes, claims, classOf, true) && Lists(supersededBy, claims, classOf, false)
    requires forall x :: InSome(cycles, x) <==> OnCycle(supersedes, x)
    requires Inside(supersededBy, nodes) && class_ in nodes
    requires forall c :: c in nodes ==> MembersOf(members, c) != []
    requires forall c, m :: Reach(supersededBy, class_, c) ==> !LastWord(supersededBy, members, c, m)
    ensures exists y :: Reach(supersededBy, class_, y) && InSome(cycles, y)
  {
    hide Edge, Ascending, InSome;
    forall z | Reach(supersededBy, class_, z) ensures z in nodes { ReachStaysIn(supersededBy, nodes, class_, z); }
    var reached := set z | z in nodes && Reach(supersededBy, class_, z);
    var y := SinkOrCycle(supersededBy, reached, class_);
    var m := MembersOf(members, y)[0];
    assert LastWord(supersededBy, members, y, m) <==> Succ(supersededBy, y) == [];
    assert forall u, v :: v in Succ(supersedes, u) <==> u in Succ(supersededBy, v);
    CyclesReverse(supersedes, supersededBy, y);
  }
}
