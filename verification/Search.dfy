/** Reference resolution, stated without its history.

    A block's search is two lists that depend on nothing but the store: the held
    ancestors of the block, newest first, and the refs graph in breadth-first order
    without repetition. `Answers` says what looking up a digest must yield from
    those two lists alone, whatever was looked up before. */
module Search {
  import opened Blocks
  import opened Options
  import opened Sorting

  // ---- the author's own chain -------------------------------------------------

  /** The held ancestors reached along prev, newest first. */
  function Ancestors(s: Blocks, from: Option<Digest>): seq<Digest>
    requires Sound(s)
    decreases from
  {
    if from.None? || from.value !in s then []
    else [from.value] + Ancestors(s, s[from.value].prev)
  }

  /** Where the chain stops for want of a block, if it does. */
  function AncestorGap(s: Blocks, from: Option<Digest>): Option<Digest>
    requires Sound(s)
    decreases from
  {
    if from.None? then None
    else if from.value !in s then from
    else AncestorGap(s, s[from.value].prev)
  }

  // ---- the refs graph ---------------------------------------------------------

  /** The entities a block defines for a node holding `keys`. */
  function Defines(s: Blocks, keys: Keyring, d: Digest): set<EntityDigest> {
    if d in s && Read(s, keys, d).Some? then Created(Read(s, keys, d).value.ops) else {}
  }

  /** The blocks whose search a block extends to. */
  function Out(s: Blocks, keys: Keyring, d: Digest): seq<Digest> {
    if d in s && Read(s, keys, d).Some? then Read(s, keys, d).value.refs else []
  }

  ghost function Elements<T>(xs: seq<T>): set<T> { set x | x in xs }

  /** How many held blocks are not listed. */
  ghost function Unread(s: Blocks, list: seq<Digest>): nat { |s.Keys - Elements(list)| }

  lemma UnreadAppend(s: Blocks, list: seq<Digest>, d: Digest)
    ensures Unread(s, list + [d]) == Unread(s, list) - (if d in s && d !in list then 1 else 0)
  {
    assert Elements(list + [d]) == Elements(list) + {d};
    var before, after := s.Keys - Elements(list), s.Keys - (Elements(list) + {d});
    assert after == before - {d};
  }

  /** The breadth-first order, once `read` has been read and `queue` waits. */
  ghost function Sweep(s: Blocks, keys: Keyring, read: seq<Digest>, queue: seq<Digest>): seq<Digest>
    decreases Unread(s, read), |queue|
  {
    if queue == [] then read
    else if queue[0] in read then Sweep(s, keys, read, queue[1..])
    else UnreadAppend(s, read, queue[0]); Sweep(s, keys, read + [queue[0]], queue[1..] + Out(s, keys, queue[0]))
  }

  /** The refs graph from `roots`, in breadth-first order, each block once. */
  ghost function Order(s: Blocks, keys: Keyring, roots: seq<Digest>): seq<Digest> {
    Sweep(s, keys, [], roots)
  }

  lemma {:induction false} SweepPrefix(s: Blocks, keys: Keyring, read: seq<Digest>, queue: seq<Digest>)
    ensures read <= Sweep(s, keys, read, queue)
    decreases Unread(s, read), |queue|
  {
    if queue != [] {
      UnreadAppend(s, read, queue[0]);
      if queue[0] in read {
        SweepPrefix(s, keys, read, queue[1..]);
      } else {
        SweepPrefix(s, keys, read + [queue[0]], queue[1..] + Out(s, keys, queue[0]));
      }
    }
  }

  lemma {:induction false} SweepReadsOnce(s: Blocks, keys: Keyring, read: seq<Digest>, queue: seq<Digest>)
    requires NoRepeats(read)
    ensures NoRepeats(Sweep(s, keys, read, queue))
    decreases Unread(s, read), |queue|
  {
    if queue != [] {
      UnreadAppend(s, read, queue[0]);
      if queue[0] in read {
        SweepReadsOnce(s, keys, read, queue[1..]);
      } else {
        NoRepeatsAppend(read, queue[0]);
        SweepReadsOnce(s, keys, read + [queue[0]], queue[1..] + Out(s, keys, queue[0]));
      }
    }
  }

  // ---- the order is exactly reachability --------------------------------------

  ghost predicate Path(s: Blocks, keys: Keyring, roots: seq<Digest>, p: seq<Digest>) {
    && |p| > 0
    && p[0] in roots
    && forall i :: 0 <= i < |p| - 1 ==> p[i + 1] in Out(s, keys, p[i])
  }

  /** d is named by refs, directly or through readable held blocks. */
  ghost predicate Reachable(s: Blocks, keys: Keyring, roots: seq<Digest>, d: Digest) {
    exists p :: Path(s, keys, roots, p) && p[|p| - 1] == d
  }

  lemma ReachableStep(s: Blocks, keys: Keyring, roots: seq<Digest>, d: Digest, e: Digest)
    requires Reachable(s, keys, roots, d) && e in Out(s, keys, d)
    ensures Reachable(s, keys, roots, e)
  {
    var p :| Path(s, keys, roots, p) && p[|p| - 1] == d;
    assert Path(s, keys, roots, p + [e]);
    assert (p + [e])[|p + [e]| - 1] == e;
  }

  lemma {:induction false} SweepSound(s: Blocks, keys: Keyring, roots: seq<Digest>, read: seq<Digest>, queue: seq<Digest>)
    requires forall d :: d in read || d in queue ==> Reachable(s, keys, roots, d)
    ensures forall d :: d in Sweep(s, keys, read, queue) ==> Reachable(s, keys, roots, d)
    decreases Unread(s, read), |queue|
  {
    if queue != [] {
      UnreadAppend(s, read, queue[0]);
      if queue[0] in read {
        SweepSound(s, keys, roots, read, queue[1..]);
      } else {
        forall d | d in Out(s, keys, queue[0]) ensures Reachable(s, keys, roots, d) {
          ReachableStep(s, keys, roots, queue[0], d);
        }
        SweepSound(s, keys, roots, read + [queue[0]], queue[1..] + Out(s, keys, queue[0]));
      }
    }
  }

  /** Everything the listed blocks name is listed or waiting. */
  ghost predicate Closed(s: Blocks, keys: Keyring, read: seq<Digest>, queue: seq<Digest>) {
    forall d, e :: d in read && e in Out(s, keys, d) ==> e in read || e in queue
  }

  lemma ClosedReads(s: Blocks, keys: Keyring, read: seq<Digest>, queue: seq<Digest>)
    requires Closed(s, keys, read, queue) && queue != []
    ensures queue[0] in read ==> Closed(s, keys, read, queue[1..])
    ensures Closed(s, keys, read + [queue[0]], queue[1..] + Out(s, keys, queue[0]))
  {
    assert queue == [queue[0]] + queue[1..];
    var next, rest := read + [queue[0]], queue[1..] + Out(s, keys, queue[0]);
    forall d, e | d in next && e in Out(s, keys, d) ensures e in next || e in rest {
      if d in read { assert e in read || e in queue; }
    }
  }

  lemma {:induction false} SweepCloses(s: Blocks, keys: Keyring, read: seq<Digest>, queue: seq<Digest>)
    requires Closed(s, keys, read, queue)
    ensures Closed(s, keys, Sweep(s, keys, read, queue), [])
    decreases Unread(s, read), |queue|
  {
    if queue != [] {
      UnreadAppend(s, read, queue[0]);
      ClosedReads(s, keys, read, queue);
      if queue[0] in read {
        SweepCloses(s, keys, read, queue[1..]);
      } else {
        SweepCloses(s, keys, read + [queue[0]], queue[1..] + Out(s, keys, queue[0]));
      }
    }
  }

  lemma {:induction false} SweepCovers(s: Blocks, keys: Keyring, read: seq<Digest>, queue: seq<Digest>, d: Digest)
    requires d in read || d in queue
    ensures d in Sweep(s, keys, read, queue)
    decreases Unread(s, read), |queue|
  {
    if queue != [] {
      UnreadAppend(s, read, queue[0]);
      if queue[0] in read {
        SweepCovers(s, keys, read, queue[1..], d);
      } else {
        SweepCovers(s, keys, read + [queue[0]], queue[1..] + Out(s, keys, queue[0]), d);
      }
    }
  }

  lemma {:induction false} PathStaysInside(s: Blocks, keys: Keyring, roots: seq<Digest>, p: seq<Digest>, list: seq<Digest>)
    requires Path(s, keys, roots, p)
    requires forall d :: d in roots ==> d in list
    requires Closed(s, keys, list, [])
    ensures p[|p| - 1] in list
    decreases |p|
  {
    if |p| > 1 {
      var q := p[..|p| - 1];
      assert Path(s, keys, roots, q);
      PathStaysInside(s, keys, roots, q, list);
      assert p[|p| - 1] in Out(s, keys, p[|p| - 2]);
    }
  }

  /** The breadth-first order lists exactly the reachable blocks, each once. */
  lemma OrderIsReachability(s: Blocks, keys: Keyring, roots: seq<Digest>)
    ensures NoRepeats(Order(s, keys, roots))
    ensures forall d :: d in Order(s, keys, roots) <==> Reachable(s, keys, roots, d)
  {
    var list := Order(s, keys, roots);
    SweepReadsOnce(s, keys, [], roots);
    forall d | d in roots ensures Reachable(s, keys, roots, d) {
      assert Path(s, keys, roots, [d]) && [d][|[d]| - 1] == d;
    }
    SweepSound(s, keys, roots, [], roots);
    SweepCloses(s, keys, [], roots);
    forall d | Reachable(s, keys, roots, d) ensures d in list {
      var p :| Path(s, keys, roots, p) && p[|p| - 1] == d;
      forall r | r in roots ensures r in list { SweepCovers(s, keys, [], roots, r); }
      PathStaysInside(s, keys, roots, p, list);
    }
  }

  // ---- the answer -------------------------------------------------------------

  datatype Answer =
    | Found
    | Absent
    | Awaits(missing: Digest)
    | Locked(unreadable: Digest)
    | LimitHit

  /** The least position of a block defining e, or the length of the list. */
  function FirstDefining(s: Blocks, keys: Keyring, list: seq<Digest>, e: EntityDigest): nat {
    if list == [] then 0
    else if e in Defines(s, keys, list[0]) then 0
    else 1 + FirstDefining(s, keys, list[1..], e)
  }

  lemma {:induction false} FirstDefiningMeaning(s: Blocks, keys: Keyring, list: seq<Digest>, e: EntityDigest)
    ensures FirstDefining(s, keys, list, e) <= |list|
    ensures FirstDefining(s, keys, list, e) < |list| ==> e in Defines(s, keys, list[FirstDefining(s, keys, list, e)])
    ensures forall k :: 0 <= k < FirstDefining(s, keys, list, e) ==> e !in Defines(s, keys, list[k])
  {
    if list != [] && e !in Defines(s, keys, list[0]) {
      FirstDefiningMeaning(s, keys, list[1..], e);
      forall k | 0 <= k < FirstDefining(s, keys, list, e) ensures e !in Defines(s, keys, list[k]) {
        if k > 0 { assert list[k] == list[1..][k - 1]; }
      }
    }
  }

  /** Everything the listed blocks define. */
  function AllDefined(s: Blocks, keys: Keyring, list: seq<Digest>): set<EntityDigest> {
    if list == [] then {}
    else AllDefined(s, keys, list[..|list| - 1]) + Defines(s, keys, list[|list| - 1])
  }

  lemma {:induction false} AllDefinedMeaning(s: Blocks, keys: Keyring, list: seq<Digest>)
    ensures forall e :: e in AllDefined(s, keys, list) <==> exists d :: d in list && e in Defines(s, keys, d)
  {
    if list != [] {
      var front, last := list[..|list| - 1], list[|list| - 1];
      AllDefinedMeaning(s, keys, front);
      forall e ensures e in AllDefined(s, keys, list) <==> exists d :: d in list && e in Defines(s, keys, d) {
        if d :| d in list && e in Defines(s, keys, d) {
          assert d == last || d in front;
        }
        if e in Defines(s, keys, last) { assert last in list; }
        if d :| d in front && e in Defines(s, keys, d) { assert d in list; }
      }
    }
  }

  lemma AllDefinedAppend(s: Blocks, keys: Keyring, list: seq<Digest>, d: Digest)
    ensures AllDefined(s, keys, list + [d]) == AllDefined(s, keys, list) + Defines(s, keys, d)
  {
    assert (list + [d])[..|list|] == list;
  }

  /** How many of the listed blocks are held: what the scan limit counts. */
  function HeldCount(s: Blocks, list: seq<Digest>): nat {
    if list == [] then 0 else HeldCount(s, list[..|list| - 1]) + (if list[|list| - 1] in s then 1 else 0)
  }

  lemma {:induction false} HeldCountMonotone(s: Blocks, list: seq<Digest>, i: nat, j: nat)
    requires i <= j <= |list|
    ensures HeldCount(s, list[..i]) <= HeldCount(s, list[..j])
    decreases j
  {
    if i < j {
      assert list[..j][..j - 1] == list[..j - 1];
      HeldCountMonotone(s, list, i, j - 1);
    }
  }

  /** A negative limit is no limit. */
  predicate Within(limit: int, n: nat) { limit < 0 || n <= limit }

  function FirstUnheld(s: Blocks, list: seq<Digest>): Option<Digest> {
    if list == [] then None
    else if list[0] !in s then Some(list[0])
    else FirstUnheld(s, list[1..])
  }

  /** Held as ciphertext no key opens. */
  predicate Sealed(s: Blocks, keys: Keyring, d: Digest) { d in s && Read(s, keys, d).None? }

  function FirstSealed(s: Blocks, keys: Keyring, list: seq<Digest>): Option<Digest> {
    if list == [] then None
    else if Sealed(s, keys, list[0]) then Some(list[0])
    else FirstSealed(s, keys, list[1..])
  }

  lemma {:induction false} FirstUnheldMeaning(s: Blocks, list: seq<Digest>)
    ensures FirstUnheld(s, list).None? <==> forall d :: d in list ==> d in s
    ensures FirstUnheld(s, list).Some? ==> FirstUnheld(s, list).value in list && FirstUnheld(s, list).value !in s
  {
    if list != [] && list[0] in s { FirstUnheldMeaning(s, list[1..]); }
  }

  lemma {:induction false} FirstSealedMeaning(s: Blocks, keys: Keyring, list: seq<Digest>)
    ensures FirstSealed(s, keys, list).None? <==> forall d :: d in list ==> !Sealed(s, keys, d)
    ensures FirstSealed(s, keys, list).Some?
        ==> FirstSealed(s, keys, list).value in list && Sealed(s, keys, FirstSealed(s, keys, list).value)
  {
    if list != [] && !Sealed(s, keys, list[0]) { FirstSealedMeaning(s, keys, list[1..]); }
  }

  lemma {:induction false} FirstUnheldConcat(s: Blocks, a: seq<Digest>, b: seq<Digest>)
    ensures FirstUnheld(s, a + b) == if FirstUnheld(s, a).Some? then FirstUnheld(s, a) else FirstUnheld(s, b)
  {
    if a == [] {
      assert a + b == b;
    } else {
      assert (a + b)[1..] == a[1..] + b;
      FirstUnheldConcat(s, a[1..], b);
    }
  }

  lemma {:induction false} FirstSealedConcat(s: Blocks, keys: Keyring, a: seq<Digest>, b: seq<Digest>)
    ensures FirstSealed(s, keys, a + b)
         == if FirstSealed(s, keys, a).Some? then FirstSealed(s, keys, a) else FirstSealed(s, keys, b)
  {
    if a == [] {
      assert a + b == b;
    } else {
      assert (a + b)[1..] == a[1..] + b;
      FirstSealedConcat(s, keys, a[1..], b);
    }
  }

  /** What a block's lookups are made against: its predecessor and its refs. */
  datatype Query = Query(prev: Option<Digest>, roots: seq<Digest>)

  /** Why a lookup that ran out of blocks failed. The author's own chain speaks
      first, then the first missing block of the refs graph, then the first block
      that needs a key. */
  ghost function Failure(s: Blocks, keys: Keyring, q: Query): Answer
    requires Sound(s)
  {
    var list := Order(s, keys, q.roots);
    if AncestorGap(s, q.prev).Some? then Awaits(AncestorGap(s, q.prev).value)
    else if FirstUnheld(s, list).Some? then Awaits(FirstUnheld(s, list).value)
    else if FirstSealed(s, keys, Ancestors(s, q.prev) + list).Some?
      then Locked(FirstSealed(s, keys, Ancestors(s, q.prev) + list).value)
    else Absent
  }

  /** What looking up `e` must yield once the block's earlier operations have
      created `own`. Nothing about earlier lookups enters. */
  ghost function Answers(s: Blocks, keys: Keyring, limit: int, q: Query, own: set<EntityDigest>, e: EntityDigest): Answer
    requires Sound(s)
  {
    var list := Order(s, keys, q.roots);
    var i := FirstDefining(s, keys, list, e);
    if e in own || e in AllDefined(s, keys, Ancestors(s, q.prev)) then Found
    else if i < |list| && Within(limit, HeldCount(s, list[..i + 1])) then Found
    else if !Within(limit, HeldCount(s, list)) then LimitHit
    else Failure(s, keys, q)
  }

  /** How far into the refs graph a lookup that did not hit the limit must read. */
  ghost function Depth(s: Blocks, keys: Keyring, q: Query, own: set<EntityDigest>, e: EntityDigest): nat
    requires Sound(s)
  {
    var list := Order(s, keys, q.roots);
    if e in own || e in AllDefined(s, keys, Ancestors(s, q.prev)) then 0
    else if FirstDefining(s, keys, list, e) < |list| then FirstDefining(s, keys, list, e) + 1
    else |list|
  }
}
