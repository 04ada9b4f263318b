/** Supersession cycles: Tarjan's strongly connected components. */
module Cycles {
  import opened Graphs

  datatype Info = Info(index: nat, low: nat, onStack: bool)

  type Table = map<Node, Info>

  predicate On(info: Table, x: Node) { x in info && info[x].onStack }

  predicate Off(info: Table, x: Node) { x in info && !info[x].onStack }

  // ---- the invariant ----------------------------------------------------------

  /** The stack lists the nodes marked on it, in the order they were numbered. */
  ghost predicate StackOk(info: Table, stack: seq<Node>, nextID: nat) {
    && (forall x :: On(info, x) <==> x in stack)
    && (forall x :: x in info ==> info[x].index < nextID)
    && (forall i, j :: 0 <= i < j < |stack| && stack[i] in info && stack[j] in info ==> info[stack[i]].index < info[stack[j]].index)
  }

  /** Nodes whose visit has ended lead nowhere new, and a finished component leads
      only to finished components. `grays` are the nodes whose visit is under way. */
  ghost predicate ColorsOk(g: Adjacency, info: Table, grays: set<Node>) {
    && (forall x :: x in grays ==> On(info, x))
    && (forall x, y :: x in info && x !in grays && y in Succ(g, x) ==> y in info)
    && (forall x, y :: Off(info, x) && y in Succ(g, x) ==> Off(info, y))
  }

  /** On the stack, earlier nodes reach later ones, and every node reaches back to a
      node under way that is no later than itself. */
  ghost predicate ReachOk(g: Adjacency, info: Table, grays: set<Node>) {
    && (forall x, y {:trigger Reach(g, x, y)} :: On(info, x) && On(info, y) && info[x].index <= info[y].index ==> Reach(g, x, y))
    && (forall y {:trigger Returns(g, info, grays, y)} :: On(info, y) ==> Returns(g, info, grays, y))
  }

  ghost predicate Returns(g: Adjacency, info: Table, grays: set<Node>, y: Node)
    requires On(info, y)
  {
    exists x :: x in grays && On(info, x) && info[x].index <= info[y].index && Reach(g, y, x)
  }

  /** c is the whole component of each of its members. */
  ghost predicate IsComponent(g: Adjacency, c: seq<Node>) {
    c != [] && Ascending(c) && forall x, y :: x in c ==> (y in c <==> Mutual(g, x, y))
  }

  /** Exactly the finished components with a cycle have been found. */
  ghost predicate FoundOk(g: Adjacency, info: Table, found: seq<seq<Node>>) {
    && (forall k :: 0 <= k < |found| ==> IsComponent(g, found[k]) && forall x :: x in found[k] ==> Off(info, x) && OnCycle(g, x))
    && (forall x :: Off(info, x) && OnCycle(g, x) ==> exists k :: 0 <= k < |found| && x in found[k])
    && (forall j, k, x :: 0 <= j < |found| && 0 <= k < |found| && x in found[j] && x in found[k] ==> j == k)
  }

  ghost predicate Inv(g: Adjacency, info: Table, stack: seq<Node>, nextID: nat, grays: set<Node>, found: seq<seq<Node>>) {
    StackOk(info, stack, nextID) && ColorsOk(g, info, grays) && ReachOk(g, info, grays) && FoundOk(g, info, found)
  }

  // ---- entering a node --------------------------------------------------------

  function Pushed(info: Table, d: Node, nextID: nat): Table { info[d := Info(nextID, nextID, true)] }

  lemma PushKeepsStack(info: Table, stack: seq<Node>, nextID: nat, d: Node)
    requires StackOk(info, stack, nextID) && d !in info
    ensures StackOk(Pushed(info, d, nextID), stack + [d], nextID + 1)
  {
    var next, st := Pushed(info, d, nextID), stack + [d];
    assert forall x :: x in stack ==> On(info, x);
    forall i, j | 0 <= i < j < |st| && st[i] in next && st[j] in next
      ensures next[st[i]].index < next[st[j]].index
    {
      assert st[i] in stack && On(info, st[i]);
    }
  }

  lemma PushKeepsReach(g: Adjacency, info: Table, nextID: nat, grays: set<Node>, d: Node)
    requires ReachOk(g, info, grays) && d !in info
    requires forall x :: x in info ==> info[x].index < nextID
    requires forall x :: On(info, x) ==> Reach(g, x, d)
    ensures ReachOk(g, Pushed(info, d, nextID), grays + {d})
  {
    var next := Pushed(info, d, nextID);
    ReachSelf(g, d);
    forall x, y | On(next, x) && On(next, y) && next[x].index <= next[y].index ensures Reach(g, x, y) {
      if y != d { assert On(info, x) && On(info, y); }
    }
    forall y | On(next, y) ensures Returns(g, next, grays + {d}, y) {
      if y == d {
        assert d in grays + {d};
      } else {
        assert Returns(g, info, grays, y);
        var x :| x in grays && On(info, x) && info[x].index <= info[y].index && Reach(g, y, x);
        assert x in grays + {d} && On(next, x);
      }
    }
  }

  lemma PushKeeps(g: Adjacency, info: Table, stack: seq<Node>, nextID: nat, grays: set<Node>, found: seq<seq<Node>>, d: Node)
    requires Inv(g, info, stack, nextID, grays, found) && d !in info
    requires forall x :: On(info, x) ==> Reach(g, x, d)
    ensures Inv(g, Pushed(info, d, nextID), stack + [d], nextID + 1, grays + {d}, found)
  {
    hide IsComponent, Ascending;
    var next := Pushed(info, d, nextID);
    PushKeepsStack(info, stack, nextID, d);
    PushKeepsReach(g, info, nextID, grays, d);
    assert forall x :: Off(next, x) <==> Off(info, x);
    assert FoundOk(g, next, found) by { FoundDependsOnOff(g, info, next, found); }
  }

  lemma FoundDependsOnOff(g: Adjacency, info: Table, next: Table, found: seq<seq<Node>>)
    requires FoundOk(g, info, found)
    requires forall x :: Off(next, x) <==> Off(info, x)
    ensures FoundOk(g, next, found)
  {
    hide IsComponent, Off, OnCycle;
  }

  /** Only the lowlink of d changes. */
  lemma LowKeeps(g: Adjacency, info: Table, stack: seq<Node>, nextID: nat, grays: set<Node>, found: seq<seq<Node>>, d: Node, low: nat)
    requires Inv(g, info, stack, nextID, grays, found) && d in info
    ensures Inv(g, info[d := info[d].(low := low)], stack, nextID, grays, found)
  {
    hide IsComponent, Ascending, Reach, OnCycle;
    var next := info[d := info[d].(low := low)];
    assert forall x :: (On(next, x) <==> On(info, x)) && (Off(next, x) <==> Off(info, x));
    assert forall x :: x in next <==> x in info;
    assert forall x :: x in info ==> next[x].index == info[x].index;
    FoundDependsOnOff(g, info, next, found);
    forall y | On(next, y) ensures Returns(g, next, grays, y) {
      assert Returns(g, info, grays, y);
      var x :| x in grays && On(info, x) && info[x].index <= info[y].index && Reach(g, y, x);
      assert On(next, x);
    }
  }

  // ---- leaving a node that is not a root ----------------------------------------

  lemma BlackenKeepsReach(g: Adjacency, info: Table, grays: set<Node>, d: Node, back: Node)
    requires ReachOk(g, info, grays + {d})
    requires On(info, d) && On(info, back) && info[back].index < info[d].index && Reach(g, d, back)
    ensures ReachOk(g, info, grays)
  {
    hide Reach, Succ;
    forall y | On(info, y) ensures Returns(g, info, grays, y) {
      assert Returns(g, info, grays + {d}, y);
      var x :| x in grays + {d} && On(info, x) && info[x].index <= info[y].index && Reach(g, y, x);
      if x == d {
        assert Returns(g, info, grays + {d}, back);
        var z :| z in grays + {d} && On(info, z) && info[z].index <= info[back].index && Reach(g, back, z);
        ReachTrans(g, d, back, z);
        ReachTrans(g, y, d, z);
      }
    }
  }

  lemma BlackenKeeps(g: Adjacency, info: Table, stack: seq<Node>, nextID: nat, grays: set<Node>, found: seq<seq<Node>>, d: Node, back: Node)
    requires Inv(g, info, stack, nextID, grays + {d}, found)
    requires forall y :: y in Succ(g, d) ==> y in info
    requires On(info, d) && On(info, back) && info[back].index < info[d].index && Reach(g, d, back)
    ensures Inv(g, info, stack, nextID, grays, found)
  {
    hide FoundOk, StackOk, ReachOk, Reach, Succ;
    BlackenKeepsReach(g, info, grays, d, back);
  }

  // ---- leaving a root: its component --------------------------------------------

  /** c has left the stack. */
  function Popped(info: Table, c: set<Node>): Table {
    map x | x in info :: if x in c then info[x].(onStack := false) else info[x]
  }

  /** `c` is the top of the stack from d on, and no edge leads from it further down. */
  ghost predicate TopOfStack(g: Adjacency, info: Table, grays: set<Node>, d: Node, c: set<Node>) {
    && d in c && d in info
    && (forall x :: x in c <==> On(info, x) && info[x].index >= info[d].index)
    && (forall x, y :: x in c && y in Succ(g, x) ==> y in info && (On(info, y) ==> y in c))
    && grays !! c
  }

  lemma TopIsClosed(g: Adjacency, info: Table, grays: set<Node>, d: Node, c: set<Node>, x: Node, y: Node)
    requires ColorsOk(g, info, grays + {d}) && TopOfStack(g, info, grays, d, c)
    requires (x in c || Off(info, x)) && Reach(g, x, y)
    ensures y in c || Off(info, y)
    ensures Off(info, x) ==> Off(info, y)
  {
    var done := set z | z in info && Off(info, z);
    if Off(info, x) {
      ReachStaysIn(g, done, x, y);
    } else {
      ReachStaysIn(g, c + done, x, y);
    }
  }

  lemma TopIsComponent(g: Adjacency, info: Table, grays: set<Node>, d: Node, c: set<Node>)
    requires ColorsOk(g, info, grays + {d}) && ReachOk(g, info, grays + {d}) && TopOfStack(g, info, grays, d, c)
    ensures forall x, y :: x in c ==> (y in c <==> Mutual(g, x, y))
  {
    hide Path;
    forall x | x in c ensures Reach(g, d, x) && Reach(g, x, d) {
      assert Returns(g, info, grays + {d}, x);
      var z :| z in grays + {d} && On(info, z) && info[z].index <= info[x].index && Reach(g, x, z);
      TopIsClosed(g, info, grays, d, c, x, z);
    }
    forall x, y | x in c ensures y in c <==> Mutual(g, x, y) {
      if y in c {
        ReachTrans(g, x, d, y);
        ReachTrans(g, y, d, x);
      }
      if Mutual(g, x, y) {
        TopIsClosed(g, info, grays, d, c, x, y);
        if Off(info, y) { TopIsClosed(g, info, grays, d, c, y, x); }
      }
    }
  }

  lemma PoppedMarks(info: Table, c: set<Node>)
    ensures var next := Popped(info, c);
      && (forall x :: On(next, x) <==> On(info, x) && x !in c)
      && (forall x :: x in next <==> x in info)
      && (forall x :: x in info ==> next[x].index == info[x].index)
  {
  }

  lemma PopKeepsColors(g: Adjacency, info: Table, grays: set<Node>, d: Node, c: set<Node>)
    requires ColorsOk(g, info, grays + {d}) && TopOfStack(g, info, grays, d, c)
    ensures ColorsOk(g, Popped(info, c), grays)
  {
    hide Succ, Popped;
    var next := Popped(info, c);
    PoppedMarks(info, c);
    assert forall x :: Off(next, x) <==> Off(info, x) || x in c;
  }

  lemma PopKeepsReach(g: Adjacency, info: Table, grays: set<Node>, d: Node, c: set<Node>)
    requires ReachOk(g, info, grays + {d}) && TopOfStack(g, info, grays, d, c)
    ensures ReachOk(g, Popped(info, c), grays)
  {
    hide Reach, Succ, Popped;
    var next := Popped(info, c);
    PoppedMarks(info, c);
    forall y | On(next, y) ensures Returns(g, next, grays, y) {
      assert Returns(g, info, grays + {d}, y);
      var x :| x in grays + {d} && On(info, x) && info[x].index <= info[y].index && Reach(g, y, x);
      assert x in grays && On(next, x);
    }
  }

  /** A component has a cycle exactly if it has two members or a self-loop. */
  lemma CyclicComponent(g: Adjacency, c: seq<Node>, d: Node, x: Node)
    requires IsComponent(g, c) && d in c && x in c
    ensures OnCycle(g, x) <==> |c| > 1 || d in Succ(g, d)
  {
    if |c| > 1 {
      var z := if c[0] == x then c[1] else c[0];
      assert z in c && z != x && Mutual(g, x, z);
      var p :| Path(g, p) && p[0] == x && p[|p| - 1] == z;
      assert p[1] in Succ(g, p[0]);
      assert Path(g, p[1..]) && p[1..][0] == p[1] && p[1..][|p[1..]| - 1] == z;
      ReachTrans(g, p[1], z, x);
    } else {
      assert c == [d] && x == d;
      if OnCycle(g, d) {
        var y :| y in Succ(g, d) && Reach(g, y, d);
        ReachEdge(g, d, y);
        assert Mutual(g, d, y);
      }
      if d in Succ(g, d) { ReachSelf(g, d); }
    }
  }

  lemma PopKeepsFound(g: Adjacency, info: Table, found: seq<seq<Node>>, c: seq<Node>, d: Node)
    requires FoundOk(g, info, found) && IsComponent(g, c) && d in c && forall x :: x in c ==> On(info, x)
    ensures var next := Popped(info, set x | x in c);
      FoundOk(g, next, if |c| > 1 || d in Succ(g, d) then found + [c] else found)
  {
    hide IsComponent, OnCycle;
    var next := Popped(info, set x | x in c);
    var after := if |c| > 1 || d in Succ(g, d) then found + [c] else found;
    assert forall x :: Off(next, x) <==> Off(info, x) || x in c;
    forall x | x in c ensures OnCycle(g, x) <==> |c| > 1 || d in Succ(g, d) { CyclicComponent(g, c, d, x); }
    forall x | Off(next, x) && OnCycle(g, x) ensures exists k :: 0 <= k < |after| && x in after[k] {
      if x in c {
        assert x in after[|found|];
      } else {
        var k :| 0 <= k < |found| && x in found[k];
        assert x in after[k];
      }
    }
  }

  // ---- one visit ----------------------------------------------------------------

  /** `low` is the number of a stack node that d reaches. */
  ghost predicate Reaches(g: Adjacency, info: Table, d: Node, low: nat) {
    exists y :: On(info, y) && info[y].index == low && Reach(g, d, y)
  }

  /** No edge from above `base` into it goes below `low`; of d's own edges, only the
      first i count. */
  ghost predicate Bounded(g: Adjacency, info: Table, base: seq<Node>, stack: seq<Node>, d: Node, i: nat, low: nat)
    requires i <= |Succ(g, d)|
  {
    forall x, y :: x in stack && x !in base && y in base && y in (if x == d then Succ(g, x)[..i] else Succ(g, x))
      ==> y in info && low <= info[y].index
  }

  lemma BaseIsBelow(info: Table, stack: seq<Node>, nextID: nat, base: seq<Node>, d: Node)
    requires StackOk(info, stack, nextID) && base + [d] <= stack
    ensures On(info, d)
    ensures forall x :: x in base ==> On(info, x) && info[x].index < info[d].index
    ensures forall x :: x in stack && x !in base ==> On(info, x) && info[x].index >= info[d].index
    ensures d !in base
  {
    assert stack[|base|] == d && On(info, d);
    forall x | x in stack ensures On(info, x) && (if x in base then info[x].index < info[d].index else info[x].index >= info[d].index) {
      assert On(info, x);
      var k :| 0 <= k < |stack| && stack[k] == x;
      if x in base {
        var j :| 0 <= j < |base| && base[j] == x;
        assert stack[j] == x;
      } else {
        assert k >= |base|;
      }
    }
    forall x | x in base ensures x in stack {
      var j :| 0 <= j < |base| && base[j] == x;
      assert stack[j] == x;
    }
  }

  /** Every stack node reaches the node under way with the greatest number. */
  lemma StackReachesTip(g: Adjacency, info: Table, grays: set<Node>, d: Node)
    requires ReachOk(g, info, grays + {d}) && On(info, d)
    requires forall z :: z in grays ==> On(info, z) && info[z].index < info[d].index
    ensures forall x :: On(info, x) ==> Reach(g, x, d)
  {
    hide Reach, Succ;
    forall x | On(info, x) ensures Reach(g, x, d) {
      assert Returns(g, info, grays + {d}, x);
      var z :| z in grays + {d} && On(info, z) && info[z].index <= info[x].index && Reach(g, x, z);
      assert Reach(g, z, d);
      ReachTrans(g, x, z, d);
    }
  }

  lemma PopKeepsStack(info: Table, stack: seq<Node>, nextID: nat, base: seq<Node>, d: Node, c: set<Node>)
    requires StackOk(info, stack, nextID) && base + [d] <= stack
    requires forall x :: x in c <==> x in stack && x !in base
    ensures StackOk(Popped(info, c), base, nextID)
  {
    BaseIsBelow(info, stack, nextID, base, d);
    hide Popped;
    var next := Popped(info, c);
    PoppedMarks(info, c);
    assert forall x :: x in base ==> x in stack && On(info, x);
    forall i, j | 0 <= i < j < |base| && base[i] in next && base[j] in next
      ensures next[base[i]].index < next[base[j]].index
    {
      assert stack[i] == base[i] && stack[j] == base[j];
    }
  }

  /** The finished root's component is popped and, if it has a cycle, found. */
  lemma RootKeeps(g: Adjacency, info: Table, stack: seq<Node>, nextID: nat, grays: set<Node>, found: seq<seq<Node>>, base: seq<Node>, d: Node, c: seq<Node>)
    requires Inv(g, info, stack, nextID, grays + {d}, found) && base + [d] <= stack
    requires forall z :: z in grays ==> z in base
    requires forall y :: y in Succ(g, d) ==> y in info
    requires Bounded(g, info, base, stack, d, |Succ(g, d)|, info[d].index)
    requires Ascending(c) && forall x :: x in c <==> x in stack && x !in base
    ensures Inv(g, Popped(info, set x | x in c), base, nextID, grays,
                if |c| > 1 || d in Succ(g, d) then found + [c] else found)
  {
    hide FoundOk, ReachOk, Reach, Succ, Popped, Ascending;
    var s := set x | x in c;
    BaseIsBelow(info, stack, nextID, base, d);
    assert Succ(g, d)[..|Succ(g, d)|] == Succ(g, d);
    assert stack[|base|] == d && d in stack;
    forall x | x in s ensures On(info, x) && info[x].index >= info[d].index {}
    forall x | On(info, x) && info[x].index >= info[d].index ensures x in s { assert x in stack; }
    forall x, y | x in s && y in Succ(g, x) ensures y in info && (On(info, y) ==> y in s) {
      assert x == d || x !in grays + {d};
      if On(info, y) { assert y in stack; }
    }
    assert TopOfStack(g, info, grays, d, s);
    TopIsComponent(g, info, grays, d, s);
    assert c != [] by { assert d in c; }
    assert IsComponent(g, c);
    PopKeepsStack(info, stack, nextID, base, d, s);
    PopKeepsColors(g, info, grays, d, s);
    PopKeepsReach(g, info, grays, d, s);
    PopKeepsFound(g, info, found, c, d);
  }

  // ---- following one edge --------------------------------------------------------

  /** What a visit of d that began on the stack `base` leaves behind. */
  ghost predicate Visited(g: Adjacency, info: Table, base: seq<Node>, stack: seq<Node>, d: Node) {
    && d in info && base <= stack
    && (if On(info, d) then info[d].low < info[d].index && Reaches(g, info, d, info[d].low)
        else stack == base && info[d].low == info[d].index)
    && Bounded(g, info, base, stack, d, |Succ(g, d)|, info[d].low)
  }

  /** The table grew; what it said of earlier nodes stands. */
  ghost predicate Kept(before: Table, after: Table) {
    forall x :: x in before ==> x in after && after[x] == before[x]
  }

  /** The visit of d has followed its first i edges. */
  ghost predicate Underway(g: Adjacency, info: Table, base: seq<Node>, stack: seq<Node>, d: Node, i: nat, low: nat)
    requires i <= |Succ(g, d)|
  {
    && base + [d] <= stack && On(info, d) && low <= info[d].index
    && Reaches(g, info, d, low)
    && (forall j :: 0 <= j < i ==> Succ(g, d)[j] in info)
    && Bounded(g, info, base, stack, d, i, low)
  }

  function Min(a: nat, b: nat): nat { if a < b then a else b }

  lemma ReachesKept(g: Adjacency, before: Table, after: Table, d: Node, low: nat)
    requires Reaches(g, before, d, low) && Kept(before, after)
    ensures Reaches(g, after, d, low)
  {
    hide Reach;
    var y :| On(before, y) && before[y].index == low && Reach(g, d, y);
    assert On(after, y);
  }

  /** The next edge led to a new node, now visited. */
  lemma FollowNew(g: Adjacency, before: Table, after: Table, base: seq<Node>, mid: seq<Node>, stack: seq<Node>, d: Node, i: nat, low: nat)
    requires i < |Succ(g, d)| && Underway(g, before, base, mid, d, i, low)
    requires forall x :: x in mid ==> On(before, x)
    requires var next := Succ(g, d)[i]; next !in before && Kept(before, after) && Visited(g, after, mid, stack, next)
    requires var next := Succ(g, d)[i]; after[next].index > before[d].index
    ensures Underway(g, after, base, stack, d, i + 1, Min(low, after[Succ(g, d)[i]].low))
  {
    hide Reach;
    var next := Succ(g, d)[i];
    var out := Min(low, after[next].low);
    ReachesKept(g, before, after, d, low);
    if out != low {
      var y :| On(after, y) && after[y].index == after[next].low && Reach(g, next, y);
      ReachEdge(g, d, next);
      ReachTrans(g, d, next, y);
    }
    EdgeList(g, d, i);
    assert base <= mid;
    PrefixMembers(base, mid);
    forall x, y | x in stack && x !in base && y in base && y in (if x == d then Succ(g, x)[..i + 1] else Succ(g, x))
      ensures y in after && out <= after[y].index
    {
      assert y in mid && On(before, y);
      if x in mid {
        assert y in (if x == d then Succ(g, x)[..i] else Succ(g, x));
      } else {
        assert Succ(g, next)[..|Succ(g, next)|] == Succ(g, next);
      }
    }
  }

  lemma EdgeList(g: Adjacency, d: Node, i: nat)
    requires i < |Succ(g, d)|
    ensures Succ(g, d)[..i + 1] == Succ(g, d)[..i] + [Succ(g, d)[i]]
  {
  }

  /** The next edge led to a node already numbered. */
  lemma FollowSeen(g: Adjacency, info: Table, base: seq<Node>, stack: seq<Node>, d: Node, i: nat, low: nat)
    requires i < |Succ(g, d)| && Underway(g, info, base, stack, d, i, low)
    requires forall x :: x in base ==> On(info, x)
    requires Succ(g, d)[i] in info
    ensures var next := Succ(g, d)[i];
      Underway(g, info, base, stack, d, i + 1, if On(info, next) then Min(low, info[next].index) else low)
  {
    hide Reach;
    var next := Succ(g, d)[i];
    var out := if On(info, next) then Min(low, info[next].index) else low;
    ReachEdge(g, d, next);
    EdgeList(g, d, i);
    if out != low { assert Reaches(g, info, d, out); }
  }

  /** Lowering d's own lowlink changes nothing else a visit relies on. */
  lemma LowerKeeps(g: Adjacency, info: Table, base: seq<Node>, stack: seq<Node>, d: Node, i: nat, low: nat)
    requires i <= |Succ(g, d)| && Underway(g, info, base, stack, d, i, low)
    ensures Underway(g, info[d := info[d].(low := low)], base, stack, d, i, low)
  {
    hide Reach;
    var next := info[d := info[d].(low := low)];
    var y :| On(info, y) && info[y].index == low && Reach(g, d, y);
    assert On(next, y);
  }

  lemma EnterKeeps(g: Adjacency, info: Table, stack: seq<Node>, nextID: nat, grays: set<Node>, found: seq<seq<Node>>, d: Node)
    requires Inv(g, info, stack, nextID, grays, found) && d !in info && AllReach(g, info, d)
    ensures Inv(g, Pushed(info, d, nextID), stack + [d], nextID + 1, grays + {d}, found)
  {
    hide Inv;
    PushKeeps(g, info, stack, nextID, grays, found, d);
  }

  lemma StartUnderway(g: Adjacency, info: Table, stack: seq<Node>, nextID: nat, grays: set<Node>, found: seq<seq<Node>>, d: Node)
    requires Inv(g, info, stack, nextID, grays, found) && d !in info
    ensures Underway(g, Pushed(info, d, nextID), stack, stack + [d], d, 0, nextID)
    ensures Kept(info, Pushed(info, d, nextID)) && Below(grays, stack)
  {
    hide FoundOk, ReachOk;
    ReachSelf(g, d);
    assert On(Pushed(info, d, nextID), d);
  }

  lemma StackMirrors(g: Adjacency, info: Table, stack: seq<Node>, nextID: nat, grays: set<Node>, found: seq<seq<Node>>)
    requires Inv(g, info, stack, nextID, grays, found)
    ensures Mirrors(stack, info)
  {
    hide FoundOk, ReachOk, ColorsOk;
  }

  lemma PushedAt(info: Table, d: Node, nextID: nat)
    ensures var now := Pushed(info, d, nextID); d in now && now[d] == Info(nextID, nextID, true) && now.Keys == info.Keys + {d}
  {
  }

  lemma InvStack(g: Adjacency, info: Table, stack: seq<Node>, nextID: nat, grays: set<Node>, found: seq<seq<Node>>)
    requires Inv(g, info, stack, nextID, grays, found)
    ensures StackOk(info, stack, nextID) && ReachOk(g, info, grays)
  {
    hide FoundOk, ReachOk, ColorsOk;
  }

  /** The visit of a node that reaches below itself ends with it left on the stack. */
  lemma NotRootKeeps(g: Adjacency, info: Table, stack: seq<Node>, nextID: nat, grays: set<Node>, found: seq<seq<Node>>, base: seq<Node>, d: Node)
    requires Inv(g, info, stack, nextID, grays + {d}, found) && d in info
    requires Underway(g, info, base, stack, d, |Succ(g, d)|, info[d].low) && info[d].low != info[d].index
    ensures Inv(g, info, stack, nextID, grays, found) && Visited(g, info, base, stack, d)
  {
    hide Inv, Bounded, Reach;
    var back :| On(info, back) && info[back].index == info[d].low && Reach(g, d, back);
    assert forall y :: y in Succ(g, d) ==> y in info;
    BlackenKeeps(g, info, stack, nextID, grays, found, d, back);
  }

  lemma RootVisited(g: Adjacency, info: Table, stack: seq<Node>, base: seq<Node>, d: Node, c: set<Node>)
    requires d in info && d in c && info[d].low == info[d].index
    requires Underway(g, info, base, stack, d, |Succ(g, d)|, info[d].low)
    requires forall x :: x in c ==> x !in base
    ensures Visited(g, Popped(info, c), base, base, d)
  {
    hide Reach, Reaches;
  }

  lemma PoppedKeeps(before: Table, info: Table, c: set<Node>)
    requires Kept(before, info) && forall x :: x in c ==> x !in before
    ensures Kept(before, Popped(info, c)) && Popped(info, c).Keys == info.Keys
  {
  }

  lemma KeptTrans(before: Table, mid: Table, after: Table, d: Node)
    requires Kept(before, mid) && Kept(mid - {d}, after) && d !in before
    ensures Kept(before, after)
  {
  }

  lemma KeptKeys(before: Table, after: Table)
    requires Kept(before, after)
    ensures before.Keys <= after.Keys
  {
  }

  lemma FewerLeft(nodes: set<Node>, before: set<Node>, after: set<Node>, d: Node)
    requires before <= after <= nodes && d in after && d !in before
    ensures |nodes - after| < |nodes - before|
  {
    assert nodes - after <= (nodes - before) - {d};
    SubsetSize(nodes - after, (nodes - before) - {d});
  }

  lemma {:induction false} SubsetSize(a: set<Node>, b: set<Node>)
    requires a <= b
    ensures |a| <= |b|
    decreases a
  {
    if x :| x in a { SubsetSize(a - {x}, b - {x}); }
  }

  /** base holds exactly the nodes on the stack at some point. */
  ghost predicate Mirrors(base: seq<Node>, before: Table) { forall x :: x in base <==> On(before, x) }

  /** The nodes under visit are all in base. */
  ghost predicate Below(grays: set<Node>, base: seq<Node>) { forall z :: z in grays ==> z in base }

  /** Every node on the stack reaches d. */
  ghost predicate AllReach(g: Adjacency, info: Table, d: Node) {
    forall x :: On(info, x) ==> Reach(g, x, d)
  }

  /** No edge leaves `nodes`. */
  ghost predicate Inside(g: Adjacency, nodes: set<Node>) {
    forall x, y :: x in nodes && y in Succ(g, x) ==> y in nodes
  }

  // ---- the algorithm --------------------------------------------------------------

  class Tarjan {
    const adjacency: Adjacency
    var found: seq<seq<Node>>
    var info: Table
    var stack: seq<Node>
    var nextID: nat

    ghost predicate Valid(grays: set<Node>)
      reads this
    {
      Inv(adjacency, info, stack, nextID, grays, found)
    }

    constructor (g: Adjacency)
      ensures Valid({}) && adjacency == g && info == map[] && stack == []
    {
      adjacency, found, info, stack, nextID := g, [], map[], [], 0;
    }

    /** Pops the stack down to and including d. */
    method PopTo(d: Node, ghost base: seq<Node>) returns (component: seq<Node>)
      requires StackOk(info, stack, nextID) && base + [d] <= stack
      modifies this`stack, this`info
      ensures stack == base && Ascending(component)
      ensures forall x :: x in component <==> x in old(stack) && x !in base
      ensures info == Popped(old(info), set x | x in component)
    {
      hide StackOk, Popped, Ascending;
      component := [];
      ghost var all, before := stack, info;
      BaseIsBelow(info, stack, nextID, base, d);
      NothingPopped(info);
      assert Ascending(component) by { EmptyAscending(); }
      assert Members(component) == Members(all[|stack|..]) == {};
      while true
        invariant |base| < |stack| <= |all| && stack == all[..|stack|]
        invariant Ascending(component) && Members(component) == Members(all[|stack|..])
        invariant info == Popped(before, Members(all[|stack|..]))
        decreases |stack|
      {
        PopOne(before, all, nextID, |stack|);
        var top := stack[|stack| - 1];
        stack := stack[..|stack| - 1];
        info := info[top := info[top].(onStack := false)];
        component := InsertDigest(component, top);
        assert Members(component) == Members(all[|stack|..]);
        if top == d {
          OnlyOnce(before, all, nextID, |stack|, |base|);
          PoppedAboveBase(before, all, nextID, base, d);
          MembersSame(component, all[|base|..]);
          break;
        }
        assert |stack| != |base|;
      }
    }

    ghost function Members(s: seq<Node>): set<Node> { set x | x in s }

    lemma MembersSame(a: seq<Node>, b: seq<Node>)
      requires Members(a) == Members(b)
      ensures forall x :: x in a <==> x in b
    {
      assert forall x :: x in Members(a) <==> x in a;
      assert forall x :: x in Members(b) <==> x in b;
    }

    lemma EmptyAscending()
      ensures Ascending([])
    {
    }

    lemma NothingPopped(info: Table)
      ensures Popped(info, {}) == info
    {
    }

    lemma PopOne(before: Table, all: seq<Node>, nextID: nat, k: nat)
      requires StackOk(before, all, nextID) && 0 < k <= |all|
      ensures var top := all[k - 1];
        && Members(all[k - 1..]) == Members(all[k..]) + {top} && top in Popped(before, Members(all[k..]))
        && Popped(before, Members(all[k - 1..]))
           == Popped(before, Members(all[k..]))[top := Popped(before, Members(all[k..]))[top].(onStack := false)]
    {
      var top := all[k - 1];
      assert all[k - 1..] == [top] + all[k..];
      assert top in all && On(before, top);
    }

    lemma PoppedAboveBase(info: Table, stack: seq<Node>, nextID: nat, base: seq<Node>, d: Node)
      requires StackOk(info, stack, nextID) && base + [d] <= stack
      ensures forall x :: x in stack[|base|..] <==> x in stack && x !in base
    {
      assert stack == base + stack[|base|..];
      forall x | x in stack[|base|..] ensures x !in base { AboveBase(info, stack, nextID, base, d, x); }
    }

    /** The visit of a root ends: its component leaves the stack and is found if it
        has a cycle. */
    method LeaveRoot(d: Node, ghost grays: set<Node>, ghost base: seq<Node>, ghost before: Table)
      requires Valid(grays + {d}) && d in info && Kept(before, info) && Mirrors(base, before)
      requires Underway(adjacency, info, base, stack, d, |Succ(adjacency, d)|, info[d].low)
      requires info[d].low == info[d].index && Below(grays, base)
      modifies this
      ensures Valid(grays) && Kept(before, info) && info.Keys == old(info.Keys)
      ensures Visited(adjacency, info, base, stack, d) && info[d].index == old(info)[d].index && nextID == old(nextID)
    {
      hide Inv, Reach, Succ, Reaches, StackOk, ReachOk, Ascending, Popped;
      ghost var on, marks := stack, info;
      InvStack(adjacency, info, stack, nextID, grays + {d}, found);
      BaseIsBelow(info, stack, nextID, base, d);
      StackMembers(info, stack, nextID);
      assert stack[|base|] == d && d in stack;
      var component := PopTo(d, base);
      ghost var c := set x | x in component;
      RootVisited(adjacency, marks, on, base, d, c);
      PoppedKeeps(before, marks, c);
      PoppedMarks(marks, c);
      EveryEdgeNumbered(adjacency, marks, base, on, d);
      RootKeeps(adjacency, marks, on, nextID, grays, found, base, d, component);
      if |component| > 1 || d in Succ(adjacency, d) {
        found := found + [component];
      }
    }

    lemma EveryEdgeNumbered(g: Adjacency, info: Table, base: seq<Node>, stack: seq<Node>, d: Node)
      requires d in info && Underway(g, info, base, stack, d, |Succ(g, d)|, info[d].low)
      ensures forall y :: y in Succ(g, d) ==> y in info
    {
    }

    lemma StackMembers(info: Table, stack: seq<Node>, nextID: nat)
      requires StackOk(info, stack, nextID)
      ensures forall x :: On(info, x) <==> x in stack
    {
    }

    lemma NumbersBelow(info: Table, stack: seq<Node>, nextID: nat, d: Node)
      requires StackOk(info, stack, nextID) && d in info
      ensures info[d].index < nextID
    {
    }

    lemma OnlyOnce(info: Table, stack: seq<Node>, nextID: nat, i: nat, j: nat)
      requires StackOk(info, stack, nextID) && i < |stack| && j < |stack| && stack[i] == stack[j]
      ensures i == j
    {
      assert stack[i] in stack && On(info, stack[i]);
    }

    lemma AboveBase(info: Table, stack: seq<Node>, nextID: nat, base: seq<Node>, d: Node, x: Node)
      requires StackOk(info, stack, nextID) && base + [d] <= stack && x in stack[|base|..]
      ensures x !in base
    {
      if x in base {
        var i :| 0 <= i < |base| && base[i] == x;
        var j :| 0 <= j < |stack| - |base| && stack[|base|..][j] == x;
        assert stack[i] == stack[|base| + j];
        OnlyOnce(info, stack, nextID, i, |base| + j);
      }
    }

    /** Follows the i-th edge of d, visiting its end if that is new, and lowers d. */
    method FollowEdge(d: Node, next: Node, ghost i: nat, ghost nodes: set<Node>, ghost grays: set<Node>, ghost base: seq<Node>)
      requires Valid(grays + {d}) && d in info && info.Keys <= nodes && d in nodes
      requires Inside(adjacency, nodes)
      requires i < |Succ(adjacency, d)| && next == Succ(adjacency, d)[i]
      requires Underway(adjacency, info, base, stack, d, i, info[d].low) && Below(grays, base)
      modifies this
      decreases |nodes - info.Keys|, 1
      ensures Valid(grays + {d}) && info.Keys <= nodes && Kept(old(info) - {d}, info)
      ensures d in info && info[d].index == old(info)[d].index
      ensures Underway(adjacency, info, base, stack, d, i + 1, info[d].low)
    {
      hide Inv, Reach, Succ, Bounded, Reaches, StackOk, ReachOk;
      ghost var mid, was := stack, info;
      InvStack(adjacency, info, stack, nextID, grays + {d}, found);
      BaseIsBelow(info, stack, nextID, base, d);
      StackMembers(info, stack, nextID);
      var low := info[d].low;
      if next !in info {
        StackReachesTip(adjacency, info, grays, d);
        forall x | On(info, x) ensures Reach(adjacency, x, next) {
          ReachEdge(adjacency, d, next);
          ReachTrans(adjacency, x, d, next);
        }
        NumbersBelow(info, stack, nextID, d);
        Visit(next, nodes, grays + {d});
        FollowNew(adjacency, was, info, base, mid, stack, d, i, low);
        if info[next].low < low { low := info[next].low; }
      } else {
        FollowSeen(adjacency, info, base, stack, d, i, low);
        if info[next].onStack && info[next].index < low { low := info[next].index; }
      }
      LowKeeps(adjacency, info, stack, nextID, grays + {d}, found, d, low);
      LowerKeeps(adjacency, info, base, stack, d, i + 1, low);
      info := info[d := info[d].(low := low)];
    }

    /** Visits a new node: everything it reaches is numbered, the finished
        components with a cycle are found, and what is left of it on the stack
        reaches back below it. */
    method Visit(d: Node, ghost nodes: set<Node>, ghost grays: set<Node>)
      requires Valid(grays) && d !in info && d in nodes && info.Keys <= nodes
      requires Inside(adjacency, nodes)
      requires AllReach(adjacency, info, d)
      modifies this
      decreases |nodes - info.Keys|, 0
      ensures Valid(grays) && Kept(old(info), info) && info.Keys <= nodes
      ensures Visited(adjacency, info, old(stack), stack, d) && info[d].index == old(nextID)
    {
      hide Inv, Reach, Succ, Bounded, Reaches, Underway, Visited, Kept, StackOk, ReachOk, Inside, On, Mirrors, Below, Pushed, AllReach;
      ghost var base, before := stack, info;
      StackMirrors(adjacency, info, stack, nextID, grays, found);
      EnterKeeps(adjacency, info, stack, nextID, grays, found, d);
      StartUnderway(adjacency, info, stack, nextID, grays, found, d);
      PushedAt(info, d, nextID);
      info := Pushed(info, d, nextID);
      nextID := nextID + 1;
      stack := stack + [d];
      var edges := Succ(adjacency, d);
      for i := 0 to |edges|
        invariant Valid(grays + {d}) && Kept(before, info) && info.Keys <= nodes && d in info
        invariant info[d].index == old(nextID)
        invariant Underway(adjacency, info, base, stack, d, i, info[d].low)
      {
        KeptKeys(before, info);
        FewerLeft(nodes, before.Keys, info.Keys, d);
        ghost var mid := info;
        FollowEdge(d, edges[i], i, nodes, grays, base);
        KeptTrans(before, mid, info, d);
      }
      if info[d].low != info[d].index {
        NotRootKeeps(adjacency, info, stack, nextID, grays, found, base, d);
        return;
      }
      LeaveRoot(d, grays, base, before);
    }
  }
}