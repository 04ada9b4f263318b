/** Arrival order does not matter: every order of a good set of blocks, with
    repeats, ends in one and the same store. */
module Confluence {
  import opened Blocks
  import opened Validation
  import opened Stability
  import opened StoreModel
  import opened StoreFacts
  import Rules

  /** A good set in the protocol's words: closed under what resolution follows, and every
      block of it keeps every rule against the whole set. */
  lemma GoodSetMeaning(t: Blocks, keys: Keyring, limit: int)
    requires limit < 0
    ensures GoodSet(t, keys, limit) <==>
              Sound(t) && ClosedSet(t, keys) && forall d :: d in t ==> Rules.Acceptable(t, t.Keys, keys, t[d])
  {
    hide Judge, ClosedSet, Rules.Acceptable, Means;
    if Sound(t) {
      forall d | d in t ensures Judge(t, t.Keys, keys, limit, t[d]).Accepted? <==> Rules.Acceptable(t, t.Keys, keys, t[d]) {
        VerdictMeaning(t, t.Keys, keys, limit, t[d]);
        AcceptableMeans(t, t.Keys, keys, t[d], Judge(t, t.Keys, keys, limit, t[d]));
      }
    }
  }

  /** The store holds part of the set t, has faulted nothing, and waits for t alone. */
  ghost predicate Part(n: Node, t: Blocks) {
    && Extends(n.blocks, t) && n.faulted == {}
    && (forall d :: d in n.verdicts && n.verdicts[d].Pending? ==> n.verdicts[d].why.Awaiting?)
    && (forall a :: a in n.waiting ==> a in t)
  }

  lemma AdmitPart(n: Node, t: Blocks, keys: Keyring, limit: int, b: Block)
    requires GoodSet(t, keys, limit) && limit < 0 && Consistent(n) && Part(n, t)
    requires BlockHash(b) in t
    ensures var (m, a) := Admit(n, keys, limit, b);
      Part(m, t) && a.Admitted? && BlockHash(b) in m.blocks
  {
    hide Judge, Accepts, GoodSet;
    assert t[BlockHash(b)] == b && Sound(t) by { GoodSetSound(t, keys, limit, b); }
    PartOfGoodSetWaits(n.blocks, t, keys, limit, Accepts(n), BlockHash(b));
  }

  lemma GoodSetSound(t: Blocks, keys: Keyring, limit: int, b: Block)
    requires GoodSet(t, keys, limit) && BlockHash(b) in t
    ensures Sound(t) && t[BlockHash(b)] == b
  {
    hide Judge, ClosedSet;
  }

  lemma {:induction false} ReadmitPart(n: Node, t: Blocks, keys: Keyring, limit: int, list: seq<Digest>)
    requires GoodSet(t, keys, limit) && limit < 0 && Consistent(n) && Part(n, t)
    ensures Part(Readmit(n, keys, limit, list).0, t)
    ensures Consistent(Readmit(n, keys, limit, list).0)
    decreases |list|
  {
    hide Admit, GoodSet, Part, Consistent;
    if list != [] {
      ConsistentSound(n);
      if list[0] !in n.blocks {
        ReadmitPart(n, t, keys, limit, list[1..]);
      } else {
        var b := n.blocks[list[0]];
        HeldIsInSet(n, t, keys, limit, list[0]);
        AdmitSound(n, keys, limit, b);
        AdmitConsistent(n, keys, limit, b);
        AdmitPart(n, t, keys, limit, b);
        ReadmitPart(Admit(n, keys, limit, b).0, t, keys, limit, list[1..]);
      }
    }
  }

  lemma ConsistentSound(n: Node)
    requires Consistent(n)
    ensures Sound(n.blocks)
  {
  }

  lemma HeldIsInSet(n: Node, t: Blocks, keys: Keyring, limit: int, d: Digest)
    requires GoodSet(t, keys, limit) && Consistent(n) && Part(n, t) && d in n.blocks
    ensures BlockHash(n.blocks[d]) == d && d in t
  {
    hide GoodSet;
  }

  lemma {:induction false} SettlePart(n: Node, t: Blocks, keys: Keyring, limit: int, queue: seq<Digest>)
    requires GoodSet(t, keys, limit) && limit < 0 && Consistent(n) && Part(n, t)
    ensures Part(Settle(n, keys, limit, queue), t)
    decreases Entries(n.waiting) + |queue|
  {
    hide Readmit, GoodSet, Part, Consistent;
    if queue != [] {
      var taken := n.(waiting := n.waiting - {queue[0]});
      ConsistentSound(n);
      TakePart(n, t, queue[0]);
      EntriesTake(n.waiting, queue[0]);
      ReadmitBounds(taken, keys, limit, Take(n.waiting, queue[0]));
      ReadmitPart(taken, t, keys, limit, Take(n.waiting, queue[0]));
      SettlePart(Readmit(taken, keys, limit, Take(n.waiting, queue[0])).0, t, keys, limit,
                 queue[1..] + Readmit(taken, keys, limit, Take(n.waiting, queue[0])).1);
    }
  }

  lemma TakePart(n: Node, t: Blocks, d: Digest)
    requires Consistent(n) && Part(n, t)
    ensures var taken := n.(waiting := n.waiting - {d}); Consistent(taken) && Part(taken, t)
  {
    var taken := n.(waiting := n.waiting - {d});
    forall a, x | Filed(taken.waiting, a, x) ensures x in taken.blocks { assert Filed(n.waiting, a, x); }
  }

  /** Offering a block of a good set is never refused. */
  lemma AddPart(n: Node, t: Blocks, keys: Keyring, limit: int, b: Block)
    requires GoodSet(t, keys, limit) && limit < 0 && Consistent(n) && Part(n, t)
    requires BlockHash(b) in t
    ensures var (m, a) := Add(n, keys, limit, b);
      a.Admitted? && Part(m, t) && BlockHash(b) in m.blocks
  {
    hide Admit, Settle, GoodSet, Part, Consistent;
    ConsistentSound(n);
    AdmitSound(n, keys, limit, b);
    AdmitPart(n, t, keys, limit, b);
    AdmitConsistent(n, keys, limit, b);
    SettlePart(Admit(n, keys, limit, b).0, t, keys, limit, [BlockHash(b)]);
    SettleKeepsVerdicts(Admit(n, keys, limit, b).0, keys, limit, [BlockHash(b)]);
  }

  lemma {:induction false} RunPart(n: Node, t: Blocks, keys: Keyring, limit: int, bs: seq<Block>)
    requires GoodSet(t, keys, limit) && limit < 0 && Invariant(n, [], []) && Part(n, t)
    requires forall b :: b in bs ==> BlockHash(b) in t
    ensures var m := Run(n, keys, limit, bs);
      Part(m, t) && Keeps(n, m) && forall b :: b in bs ==> BlockHash(b) in m.blocks
    decreases |bs|
  {
    hide Add, GoodSet, Part, Consistent, WellFiled, NoneStale;
    if bs != [] {
      InvariantSound(n, [], []);
      AddPart(n, t, keys, limit, bs[0]);
      AddKeepsVerdicts(n, keys, limit, bs[0]);
      AddKeepsWaitingIndex(n, keys, limit, bs[0]);
      RunPart(Add(n, keys, limit, bs[0]).0, t, keys, limit, bs[1..]);
      assert forall b :: b in bs ==> b == bs[0] || b in bs[1..];
    }
  }

  /** With nothing missing, a block can only wait for its predecessor, and so down to
      the genesis block, which waits for nothing. */
  lemma {:induction false} CompleteIsValid(n: Node, t: Blocks, d: Digest)
    requires Invariant(n, [], []) && Part(n, t) && n.blocks == t && ClosedSetPrev(t)
    requires d in t
    ensures Holds(n, d, Valid)
    decreases d
  {
    if !Holds(n, d, Valid) {
      var x := n.verdicts[d].why.block;
      assert Waits(n, d, x);
      assert Outstanding(n, [], d, x);
      var b := t[d];
      assert d == BlockHash(b);
      if x in t { CompleteIsValid(n, t, x); }
      PendingIsForTheSet(n, t, d);
      assert false;
    }
  }

  ghost predicate ClosedSetPrev(t: Blocks) { forall d :: d in t && t[d].prev.Some? ==> t[d].prev.value in t }

  lemma PendingIsForTheSet(n: Node, t: Blocks, d: Digest)
    requires Invariant(n, [], []) && Part(n, t) && d in n.verdicts && n.verdicts[d].Pending?
    ensures n.verdicts[d].why.block in t
  {
    assert Waits(n, d, n.verdicts[d].why.block);
    assert Filed(n.waiting, n.verdicts[d].why.block, d);
  }

  lemma EmptyInvariant(t: Blocks)
    ensures Invariant(Empty, [], []) && Part(Empty, t)
  {
  }

  /** The store that has accepted exactly the set t. */
  function AllAccepted(t: Blocks): Node { Node(t, map d | d in t :: Valid, map[], {}) }

  /** Arrival-order confluence: offer the blocks of a good set in any order, with any
      repeats, and the store ends holding exactly the set, every block accepted,
      nothing waiting. */
  lemma ArrivalOrderDoesNotMatter(t: Blocks, keys: Keyring, limit: int, bs: seq<Block>)
    requires GoodSet(t, keys, limit) && limit < 0
    requires forall b :: b in bs ==> BlockHash(b) in t
    requires forall d :: d in t ==> t[d] in bs
    ensures Invariant(Empty, [], []) && Run(Empty, keys, limit, bs) == AllAccepted(t)
  {
    hide Run, GoodSet;
    EmptyInvariant(t);
    var m := Run(Empty, keys, limit, bs);
    RunPart(Empty, t, keys, limit, bs);
    RunKeepsWaitingIndex(Empty, keys, limit, bs);
    forall d | d in t ensures d in m.blocks {
      GoodSetHash(t, keys, limit, d);
    }
    assert m.blocks == t;
    GoodSetPrev(t, keys, limit);
    forall d | d in t ensures Holds(m, d, Valid) { CompleteIsValid(m, t, d); }
    assert m.verdicts == map d | d in t :: Valid;
    assert forall a :: a in m.waiting ==> Holds(m, a, Valid);
    assert m.waiting == map[];
  }

  /** And no arrival on the way is refused. */
  lemma EveryArrivalIsAdmitted(t: Blocks, keys: Keyring, limit: int, bs: seq<Block>, b: Block)
    requires GoodSet(t, keys, limit) && limit < 0
    requires (forall x :: x in bs ==> BlockHash(x) in t) && BlockHash(b) in t
    ensures Invariant(Empty, [], [])
    ensures var n := Run(Empty, keys, limit, bs);
      Sound(n.blocks) && Add(n, keys, limit, b).1.Admitted?
  {
    hide Run, GoodSet, Add, Part, Consistent, WellFiled, NoneStale;
    EmptyInvariant(t);
    RunPart(Empty, t, keys, limit, bs);
    RunKeepsWaitingIndex(Empty, keys, limit, bs);
    InvariantSound(Run(Empty, keys, limit, bs), [], []);
    AddPart(Run(Empty, keys, limit, bs), t, keys, limit, b);
  }

  lemma GoodSetHash(t: Blocks, keys: Keyring, limit: int, d: Digest)
    requires GoodSet(t, keys, limit) && d in t
    ensures d == BlockHash(t[d])
  {
    hide Judge, ClosedSet;
  }

  lemma GoodSetPrev(t: Blocks, keys: Keyring, limit: int)
    requires GoodSet(t, keys, limit)
    ensures ClosedSetPrev(t)
  {
    hide Judge;
  }
}
