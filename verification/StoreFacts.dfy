/** What every sequential run of the store keeps, and where a complete run ends. */
module StoreFacts {
  import opened Blocks
  import opened Options
  import opened Search
  import opened Resolution
  import opened Validation
  import opened StoreModel

  // ---- what an undecided verdict waits for ------------------------------------

  lemma {:induction false} ReferencesAwaitMissing(s: Blocks, keys: Keyring, limit: int, q: Query, own: set<EntityDigest>, refs: seq<Reference>)
    requires Sound(s)
    ensures var o := CheckReferences(s, keys, limit, q, own, refs); o.Awaiting? ==> o.block !in s
    decreases |refs|
  {
    hide Sound, Failure;
    if refs != [] {
      FailureMeaning(s, keys, q);
      ReferencesAwaitMissing(s, keys, limit, q, own, refs[1..]);
    }
  }

  lemma {:induction false} OperationsAwaitMissing(s: Blocks, keys: Keyring, limit: int, q: Query, own: set<EntityDigest>, ops: seq<Operation>)
    requires Sound(s)
    ensures var o := CheckOperations(s, keys, limit, q, own, ops); o.Awaiting? ==> o.block !in s
    decreases |ops|
  {
    hide Sound, CheckReferences;
    if ops != [] {
      ReferencesAwaitMissing(s, keys, limit, q, own, References(ops[0]));
      OperationsAwaitMissing(s, keys, limit, q, own + Created([ops[0]]), ops[1..]);
    }
  }

  lemma {:induction false} HygieneNeverWaits(s: Blocks, b: Block, refs: seq<Digest>)
    ensures !Hygiene(s, b, refs).Undecided()
    decreases |refs|
  {
    if refs != [] { HygieneNeverWaits(s, b, refs[1..]); }
  }

  /** An undecided block waits for a block the store does not hold, or for its own
      predecessor's acceptance. */
  lemma AwaitedIsMissingOrPredecessor(s: Blocks, accepted: set<Digest>, keys: Keyring, limit: int, b: Block)
    requires Sound(s)
    ensures var o := Judge(s, accepted, keys, limit, b);
      o.Awaiting? ==> o.block !in s || (b.prev == Some(o.block) && o.block !in accepted)
  {
    hide Sound, CheckOperations, Hygiene;
    if Link(s, accepted, b).Accepted? && Plaintext(b).Some? {
      var p := Plaintext(b).value;
      HygieneNeverWaits(s, b, p.refs);
      OperationsAwaitMissing(s, keys, limit, Query(b.prev, p.refs), {}, p.ops);
    }
  }

  // ---- the invariant of the waiting index --------------------------------------

  ghost predicate Consistent(n: Node) {
    && Sound(n.blocks) && n.verdicts.Keys == n.blocks.Keys
    && (forall a, d :: Filed(n.waiting, a, d) ==> d in n.blocks)
    && (forall d :: d in n.verdicts && n.verdicts[d].Pending? ==> n.verdicts[d].why.Undecided())
  }

  /** What d is waiting for is still outstanding: not held, about to be settled, or
      d's own predecessor and not yet accepted. */
  ghost predicate Outstanding(n: Node, queue: seq<Digest>, d: Digest, x: Digest) {
    x !in n.blocks || x in queue || (d in n.blocks && n.blocks[d].prev == Some(x) && !Holds(n, x, Valid))
  }

  ghost predicate Waits(n: Node, d: Digest, x: Digest) { Holds(n, d, Pending(Awaiting(x))) && d !in n.faulted }

  /** Each block waiting for another is filed under it, except the ones being
      readmitted, and what it waits for is outstanding. */
  ghost predicate WellFiled(n: Node, queue: seq<Digest>, exempt: seq<Digest>) {
    forall d, x :: Waits(n, d, x) && d !in exempt ==> Filed(n.waiting, x, d) && Outstanding(n, queue, d, x)
  }

  /** Nothing is filed under an accepted block that is not about to be settled. */
  ghost predicate NoneStale(n: Node, queue: seq<Digest>) {
    forall a :: a in n.waiting ==> !Holds(n, a, Valid) || a in queue
  }

  ghost predicate Invariant(n: Node, queue: seq<Digest>, exempt: seq<Digest>) {
    Consistent(n) && WellFiled(n, queue, exempt) && NoneStale(n, queue)
  }

  lemma AdmitConsistent(n: Node, keys: Keyring, limit: int, b: Block)
    requires Consistent(n)
    ensures Consistent(Admit(n, keys, limit, b).0)
    ensures BlockHash(b) in n.blocks ==> Admit(n, keys, limit, b).0.blocks == n.blocks
  {
    hide Judge;
    var d, m := BlockHash(b), Admit(n, keys, limit, b).0;
    if d in n.blocks {
      assert n.blocks[d] == b;
      assert n.blocks[d := b] == n.blocks;
    }
    forall a, x | Filed(m.waiting, a, x) ensures x in m.blocks {
      assert Filed(n.waiting, a, x) || x == d;
    }
  }

  lemma AcceptsIsHolds(n: Node)
    ensures forall d :: d in Accepts(n) <==> Holds(n, d, Valid)
  {
  }

  lemma AdmitFiles(n: Node, keys: Keyring, limit: int, b: Block, queue: seq<Digest>, exempt: seq<Digest>, left: seq<Digest>)
    requires Consistent(n) && WellFiled(n, queue, exempt)
    requires forall d :: d in exempt ==> d in left || d == BlockHash(b)
    ensures var (m, a) := Admit(n, keys, limit, b);
      && WellFiled(m, queue + [BlockHash(b)], left)
      && (BlockHash(b) in n.blocks && !(a.Admitted? && a.entry.Valid?) ==> WellFiled(m, queue, left))
  {
    hide Judge, Accepts;
    var (m, a) := Admit(n, keys, limit, b);
    AwaitedIsMissingOrPredecessor(n.blocks, Accepts(n), keys, limit, b);
    AcceptsIsHolds(n);
    AdmitConsistent(n, keys, limit, b);
    var settles := !(BlockHash(b) in n.blocks && !(a.Admitted? && a.entry.Valid?));
    var next := if settles then queue + [BlockHash(b)] else queue;
    forall d, x | Waits(m, d, x) && d !in left
      ensures Filed(m.waiting, x, d) && Outstanding(m, next, d, x)
    {
      if d != BlockHash(b) {
        assert Waits(n, d, x) && d !in exempt;
      }
    }
  }

  lemma AdmitLeavesNoneStale(n: Node, keys: Keyring, limit: int, b: Block, queue: seq<Digest>)
    requires Consistent(n) && NoneStale(n, queue)
    ensures var (m, a) := Admit(n, keys, limit, b);
      NoneStale(m, queue + [BlockHash(b)]) && (!(a.Admitted? && a.entry.Valid?) ==> NoneStale(m, queue))
  {
    hide Judge, Accepts;
    AwaitedIsMissingOrPredecessor(n.blocks, Accepts(n), keys, limit, b);
    AcceptsIsHolds(n);
  }

  lemma {:induction false} ReadmitKeeps(n: Node, keys: Keyring, limit: int, list: seq<Digest>, queue: seq<Digest>)
    requires Invariant(n, queue, list)
    ensures var (m, more) := Readmit(n, keys, limit, list); Invariant(m, queue + more, []) && m.blocks == n.blocks
    decreases |list|
  {
    hide Judge, Outstanding, Admit;
    if list == [] {
      assert queue + [] == queue;
    } else if list[0] !in n.blocks {
      assert WellFiled(n, queue, list[1..]);
      ReadmitKeeps(n, keys, limit, list[1..], queue);
    } else {
      var b := n.blocks[list[0]];
      AdmitSound(n, keys, limit, b);
      AdmitConsistent(n, keys, limit, b);
      AdmitFiles(n, keys, limit, b, queue, list, list[1..]);
      AdmitLeavesNoneStale(n, keys, limit, b, queue);
      var (n1, a) := Admit(n, keys, limit, b);
      var (m, more) := Readmit(n1, keys, limit, list[1..]);
      if a.Admitted? && a.entry.Valid? {
        ReadmitKeeps(n1, keys, limit, list[1..], queue + [list[0]]);
        assert queue + [list[0]] + more == queue + ([list[0]] + more);
      } else {
        ReadmitKeeps(n1, keys, limit, list[1..], queue);
      }
    }
  }

  lemma TakeKeeps(n: Node, queue: seq<Digest>)
    requires Invariant(n, queue, []) && queue != []
    ensures Invariant(n.(waiting := n.waiting - {queue[0]}), queue[1..], Take(n.waiting, queue[0]))
  {
    var m := n.(waiting := n.waiting - {queue[0]});
    forall a, d | Filed(m.waiting, a, d) ensures d in m.blocks {
      assert Filed(n.waiting, a, d);
    }
    forall d, x | Waits(m, d, x) && d !in Take(n.waiting, queue[0])
      ensures Filed(m.waiting, x, d) && Outstanding(m, queue[1..], d, x)
    {
      assert Waits(n, d, x);
    }
  }

  lemma {:induction false} SettleKeeps(n: Node, keys: Keyring, limit: int, queue: seq<Digest>)
    requires Invariant(n, queue, [])
    ensures Invariant(Settle(n, keys, limit, queue), [], []) && Settle(n, keys, limit, queue).blocks == n.blocks
    decreases Entries(n.waiting) + |queue|
  {
    hide Invariant, Readmit;
    if queue != [] {
      var taken := n.(waiting := n.waiting - {queue[0]});
      assert Sound(n.blocks) by { InvariantSound(n, queue, []); }
      EntriesTake(n.waiting, queue[0]);
      ReadmitBounds(taken, keys, limit, Take(n.waiting, queue[0]));
      TakeKeeps(n, queue);
      ReadmitKeeps(taken, keys, limit, Take(n.waiting, queue[0]), queue[1..]);
      SettleKeeps(Readmit(taken, keys, limit, Take(n.waiting, queue[0])).0, keys, limit,
                  queue[1..] + Readmit(taken, keys, limit, Take(n.waiting, queue[0])).1);
    }
  }

  lemma InvariantSound(n: Node, queue: seq<Digest>, exempt: seq<Digest>)
    requires Invariant(n, queue, exempt)
    ensures Sound(n.blocks)
  {
  }

  /** Every Add, whatever it is offered and whatever it answers, leaves each waiting
      block filed under what it waits for, and what it waits for outstanding. */
  lemma AddKeepsWaitingIndex(n: Node, keys: Keyring, limit: int, b: Block)
    requires Invariant(n, [], [])
    ensures Invariant(Add(n, keys, limit, b).0, [], [])
  {
    hide Judge, Admit, Settle;
    AdmitSound(n, keys, limit, b);
    AdmitConsistent(n, keys, limit, b);
    AdmitFiles(n, keys, limit, b, [], [], []);
    AdmitLeavesNoneStale(n, keys, limit, b, []);
    var (n1, a) := Admit(n, keys, limit, b);
    assert [] + [BlockHash(b)] == [BlockHash(b)];
    if a.Refused? || a.duplicate {
      RefusedOrDuplicateChangesNothing(n, keys, limit, b);
    } else {
      SettleKeeps(n1, keys, limit, [BlockHash(b)]);
    }
  }

  lemma RefusedOrDuplicateChangesNothing(n: Node, keys: Keyring, limit: int, b: Block)
    requires Invariant(n, [], [])
    ensures var (m, a) := Admit(n, keys, limit, b);
      a.Refused? || a.duplicate ==> Invariant(m, [], []) && m == n.(faulted := m.faulted)
  {
    hide Judge;
    var m := Admit(n, keys, limit, b).0;
    forall d, x | Waits(m, d, x) ensures m == n.(faulted := m.faulted) ==> Waits(n, d, x) {}
  }

  // ---- a verdict moves in one direction ----------------------------------------

  /** Nothing held is lost and nothing accepted is taken back. */
  ghost predicate Keeps(n: Node, m: Node) {
    && Extends(n.blocks, m.blocks)
    && forall d :: Holds(n, d, Valid) ==> Holds(m, d, Valid)
  }

  lemma AdmitKeepsVerdicts(n: Node, keys: Keyring, limit: int, b: Block)
    requires Sound(n.blocks)
    ensures var (m, a) := Admit(n, keys, limit, b);
      Keeps(n, m) && Sound(m.blocks) && (a.Admitted? ==> BlockHash(b) in m.verdicts)
  {
    hide Judge;
  }

  lemma {:induction false} ReadmitKeepsVerdicts(n: Node, keys: Keyring, limit: int, list: seq<Digest>)
    requires Sound(n.blocks)
    ensures Keeps(n, Readmit(n, keys, limit, list).0)
    decreases |list|
  {
    hide Admit;
    if list != [] {
      if list[0] !in n.blocks {
        ReadmitKeepsVerdicts(n, keys, limit, list[1..]);
      } else {
        AdmitSound(n, keys, limit, n.blocks[list[0]]);
        AdmitKeepsVerdicts(n, keys, limit, n.blocks[list[0]]);
        ReadmitKeepsVerdicts(Admit(n, keys, limit, n.blocks[list[0]]).0, keys, limit, list[1..]);
      }
    }
  }

  lemma {:induction false} SettleKeepsVerdicts(n: Node, keys: Keyring, limit: int, queue: seq<Digest>)
    requires Sound(n.blocks)
    ensures Keeps(n, Settle(n, keys, limit, queue))
    decreases Entries(n.waiting) + |queue|
  {
    hide Readmit;
    if queue != [] {
      var taken := n.(waiting := n.waiting - {queue[0]});
      EntriesTake(n.waiting, queue[0]);
      ReadmitBounds(taken, keys, limit, Take(n.waiting, queue[0]));
      ReadmitKeepsVerdicts(taken, keys, limit, Take(n.waiting, queue[0]));
      SettleKeepsVerdicts(Readmit(taken, keys, limit, Take(n.waiting, queue[0])).0, keys, limit,
                          queue[1..] + Readmit(taken, keys, limit, Take(n.waiting, queue[0])).1);
    }
  }

  lemma AddKeepsVerdicts(n: Node, keys: Keyring, limit: int, b: Block)
    requires Sound(n.blocks)
    ensures Keeps(n, Add(n, keys, limit, b).0)
  {
    hide Admit, Settle;
    AdmitSound(n, keys, limit, b);
    AdmitKeepsVerdicts(n, keys, limit, b);
    SettleKeepsVerdicts(Admit(n, keys, limit, b).0, keys, limit, [BlockHash(b)]);
  }

  lemma {:induction false} ReadmitKeepsBlocks(n: Node, keys: Keyring, limit: int, list: seq<Digest>)
    requires Sound(n.blocks)
    ensures Readmit(n, keys, limit, list).0.blocks == n.blocks
    decreases |list|
  {
    if list != [] {
      if list[0] !in n.blocks {
        ReadmitKeepsBlocks(n, keys, limit, list[1..]);
      } else {
        AdmitSound(n, keys, limit, n.blocks[list[0]]);
        AdmitKeepsBlocks(n, keys, limit, list[0]);
        ReadmitKeepsBlocks(Admit(n, keys, limit, n.blocks[list[0]]).0, keys, limit, list[1..]);
      }
    }
  }

  lemma AdmitKeepsBlocks(n: Node, keys: Keyring, limit: int, d: Digest)
    requires Sound(n.blocks) && d in n.blocks
    ensures Admit(n, keys, limit, n.blocks[d]).0.blocks == n.blocks
  {
    hide Judge;
    assert n.blocks[d := n.blocks[d]] == n.blocks;
  }

  lemma {:induction false} SettleKeepsBlocks(n: Node, keys: Keyring, limit: int, queue: seq<Digest>)
    requires Sound(n.blocks)
    ensures Settle(n, keys, limit, queue).blocks == n.blocks
    decreases Entries(n.waiting) + |queue|
  {
    if queue != [] {
      hide Entries, Readmit, Admit;
      var taken := n.(waiting := n.waiting - {queue[0]});
      EntriesTake(n.waiting, queue[0]);
      ReadmitBounds(taken, keys, limit, Take(n.waiting, queue[0]));
      ReadmitKeepsBlocks(taken, keys, limit, Take(n.waiting, queue[0]));
      var (m, more) := Readmit(taken, keys, limit, Take(n.waiting, queue[0]));
      SettleKeepsBlocks(m, keys, limit, queue[1..] + more);
    }
  }

  // ---- runs -------------------------------------------------------------------

  ghost function Run(n: Node, keys: Keyring, limit: int, bs: seq<Block>): Node
    requires Invariant(n, [], [])
    decreases |bs|
  {
    if bs == [] then n
    else
      InvariantSound(n, [], []);
      AddKeepsWaitingIndex(n, keys, limit, bs[0]);
      Run(Add(n, keys, limit, bs[0]).0, keys, limit, bs[1..])
  }

  /** Over every run: the waiting index stays exact, and an accepted verdict is for
      good. */
  lemma {:induction false} RunKeepsWaitingIndex(n: Node, keys: Keyring, limit: int, bs: seq<Block>)
    requires Invariant(n, [], [])
    ensures Invariant(Run(n, keys, limit, bs), [], [])
    ensures Keeps(n, Run(n, keys, limit, bs))
    decreases |bs|
  {
    hide Invariant, Add;
    if bs != [] {
      InvariantSound(n, [], []);
      AddKeepsWaitingIndex(n, keys, limit, bs[0]);
      AddKeepsVerdicts(n, keys, limit, bs[0]);
      RunKeepsWaitingIndex(Add(n, keys, limit, bs[0]).0, keys, limit, bs[1..]);
    }
  }
}
