/** What the acceptances of the store are worth: whatever blocks are offered, in whatever
    order, every accepted block keeps standing on rules 3, 4, 5 and 7 as the protocol words
    them, and so stands on an accepted chain of one author down to its genesis block. */
module Acceptance {
  import opened Blocks
  import opened Options
  import opened Rules
  import opened Search
  import opened Validation
  import opened StoreModel
  import opened StoreFacts

  // ---- the rules that later arrivals cannot break ------------------------------------

  /** Rules 3, 4, 5 and 7: all but the two about what refs name. */
  ghost predicate Upheld(s: Blocks, accepted: set<Digest>, keys: Keyring, b: Block) {
    && MayExtend(s, accepted, b)
    && (b.content.Public? ==>
          var p := b.content.payload;
          p.ops != [] && forall i :: 0 <= i < |p.ops| ==> Passes(s, keys, Query(b.prev, p.refs), p.ops, i))
  }

  lemma ProvidesGrows(s: Blocks, t: Blocks, keys: Keyring, q: Query, e: Entity)
    requires Extends(s, t) && Provides(s, keys, q, e)
    ensures Provides(t, keys, q, e)
  {
    var d, p :| Searched(s, keys, q, d) && Opens(s, keys, d, p) && Create(e) in p.ops;
    SearchedGrows(s, t, keys, q, d);
    assert Searched(t, keys, q, d) && Opens(t, keys, d, p);
  }

  lemma SearchedGrows(s: Blocks, t: Blocks, keys: Keyring, q: Query, d: Digest)
    requires Extends(s, t) && Searched(s, keys, q, d)
    ensures Searched(t, keys, q, d)
  {
    var path :| (DownChain(s, q.prev, path) || AlongRefs(s, keys, q.roots, path)) && path[|path| - 1] == d;
    if AlongRefs(s, keys, q.roots, path) {
      hide Opens;
      forall i | 0 <= i < |path| - 1 ensures RefersTo(t, keys, path[i], path[i + 1]) {
        RefersGrows(s, t, keys, path[i], path[i + 1]);
      }
      assert AlongRefs(t, keys, q.roots, path);
    } else {
      assert DownChain(t, q.prev, path);
    }
  }

  lemma RefersGrows(s: Blocks, t: Blocks, keys: Keyring, d: Digest, x: Digest)
    requires Extends(s, t) && RefersTo(s, keys, d, x)
    ensures RefersTo(t, keys, d, x)
  {
    var p :| Opens(s, keys, d, p) && x in p.refs;
    assert Opens(t, keys, d, p);
  }

  lemma PassesGrows(s: Blocks, t: Blocks, keys: Keyring, q: Query, ops: seq<Operation>, i: nat)
    requires Extends(s, t) && i < |ops| && Passes(s, keys, q, ops, i)
    ensures Passes(t, keys, q, ops, i)
  {
    hide Extends, Provides, WellFilled, Carries;
    forall digest, kind | Carries(ops[i], digest, kind) ensures Rests(t, keys, q, ops, i, digest, kind) {
      assert Rests(s, keys, q, ops, i, digest, kind);
      if Provides(s, keys, q, digest.entity) { ProvidesGrows(s, t, keys, q, digest.entity); }
    }
  }

  lemma UpheldGrows(s: Blocks, accepted: set<Digest>, t: Blocks, more: set<Digest>, keys: Keyring, b: Block)
    requires Extends(s, t) && accepted <= more && Upheld(s, accepted, keys, b)
    ensures Upheld(t, more, keys, b)
  {
    hide Passes;
    assert MayExtend(t, more, b);
    if b.content.Public? {
      var p := b.content.payload;
      forall i | 0 <= i < |p.ops| ensures Passes(t, keys, Query(b.prev, p.refs), p.ops, i) {
        PassesGrows(s, t, keys, Query(b.prev, p.refs), p.ops, i);
      }
    }
  }

  /** What is accepted, under whatever scan limit, keeps every rule. */
  lemma AcceptedIsAcceptable(s: Blocks, accepted: set<Digest>, keys: Keyring, limit: int, b: Block)
    requires Sound(s) && Judge(s, accepted, keys, limit, b).Accepted?
    ensures Acceptable(s, accepted, keys, b)
    ensures Upheld(s, accepted, keys, b)
  {
    hide Judge, MayExtend, CleanRefs, Passes, Affordable, Breaks, Wants, WantsKey;
    if limit < 0 { VerdictMeaning(s, accepted, keys, limit, b); } else { AcceptanceUnderLimit(s, accepted, keys, limit, b); }
  }

  // ---- every run ---------------------------------------------------------------------

  /** Every accepted block is held, and keeps the rules in the store as it now is. */
  ghost predicate Accounted(n: Node, keys: Keyring) {
    && Sound(n.blocks)
    && forall d :: Holds(n, d, Valid) ==> d in n.blocks && Upheld(n.blocks, Accepts(n), keys, n.blocks[d])
  }

  lemma AccountedGrows(n: Node, m: Node, keys: Keyring, d: Digest)
    requires Accounted(n, keys) && Keeps(n, m) && Holds(n, d, Valid)
    ensures d in m.blocks && Upheld(m.blocks, Accepts(m), keys, m.blocks[d])
  {
    hide Upheld;
    assert Accepts(n) <= Accepts(m) by {
      AcceptsIsHolds(n);
      AcceptsIsHolds(m);
    }
    UpheldGrows(n.blocks, Accepts(n), m.blocks, Accepts(m), keys, n.blocks[d]);
  }

  lemma AdmitAccounted(n: Node, keys: Keyring, limit: int, b: Block)
    requires Accounted(n, keys)
    ensures Accounted(Admit(n, keys, limit, b).0, keys)
  {
    hide Judge, Upheld;
    var m, d := Admit(n, keys, limit, b).0, BlockHash(b);
    AdmitKeepsVerdicts(n, keys, limit, b);
    forall x | Holds(m, x, Valid) ensures x in m.blocks && Upheld(m.blocks, Accepts(m), keys, m.blocks[x]) {
      if Holds(n, x, Valid) {
        AccountedGrows(n, m, keys, x);
      } else {
        assert x == d && m.blocks[d] == b;
        AcceptedIsAcceptable(n.blocks, Accepts(n), keys, limit, b);
        assert Accepts(n) <= Accepts(m) by {
          AcceptsIsHolds(n);
          AcceptsIsHolds(m);
        }
        UpheldGrows(n.blocks, Accepts(n), m.blocks, Accepts(m), keys, b);
      }
    }
  }

  lemma {:induction false} ReadmitAccounted(n: Node, keys: Keyring, limit: int, list: seq<Digest>)
    requires Accounted(n, keys)
    ensures Accounted(Readmit(n, keys, limit, list).0, keys)
    decreases |list|
  {
    hide Admit, Upheld;
    if list != [] {
      if list[0] !in n.blocks {
        ReadmitAccounted(n, keys, limit, list[1..]);
      } else {
        AdmitSound(n, keys, limit, n.blocks[list[0]]);
        AdmitAccounted(n, keys, limit, n.blocks[list[0]]);
        ReadmitAccounted(Admit(n, keys, limit, n.blocks[list[0]]).0, keys, limit, list[1..]);
      }
    }
  }

  lemma AccountedSound(n: Node, keys: Keyring)
    requires Accounted(n, keys)
    ensures Sound(n.blocks)
  {
  }

  lemma TakenAccounted(n: Node, keys: Keyring, d: Digest)
    requires Accounted(n, keys)
    ensures Accounted(n.(waiting := n.waiting - {d}), keys)
  {
    hide Upheld;
    var taken := n.(waiting := n.waiting - {d});
    assert Accepts(taken) == Accepts(n);
    assert forall x :: Holds(taken, x, Valid) <==> Holds(n, x, Valid);
  }

  lemma {:induction false} SettleAccounted(n: Node, keys: Keyring, limit: int, queue: seq<Digest>)
    requires Accounted(n, keys)
    ensures Accounted(Settle(n, keys, limit, queue), keys)
    decreases Entries(n.waiting) + |queue|
  {
    hide Readmit, Upheld;
    if queue != [] {
      var taken := n.(waiting := n.waiting - {queue[0]});
      EntriesTake(n.waiting, queue[0]);
      ReadmitBounds(taken, keys, limit, Take(n.waiting, queue[0]));
      TakenAccounted(n, keys, queue[0]);
      ReadmitAccounted(taken, keys, limit, Take(n.waiting, queue[0]));
      SettleAccounted(Readmit(taken, keys, limit, Take(n.waiting, queue[0])).0, keys, limit,
                      queue[1..] + Readmit(taken, keys, limit, Take(n.waiting, queue[0])).1);
    }
  }

  lemma AddAccounted(n: Node, keys: Keyring, limit: int, b: Block)
    requires Accounted(n, keys)
    ensures Accounted(Add(n, keys, limit, b).0, keys)
  {
    hide Admit, Settle, Upheld;
    AdmitSound(n, keys, limit, b);
    AdmitAccounted(n, keys, limit, b);
    SettleAccounted(Admit(n, keys, limit, b).0, keys, limit, [BlockHash(b)]);
  }

  lemma {:induction false} RunFromAccounted(n: Node, keys: Keyring, limit: int, bs: seq<Block>)
    requires Invariant(n, [], []) && Accounted(n, keys)
    ensures Accounted(Run(n, keys, limit, bs), keys)
    decreases |bs|
  {
    hide Invariant, Add, Accounted;
    if bs != [] {
      InvariantSound(n, [], []);
      AddKeepsWaitingIndex(n, keys, limit, bs[0]);
      AddAccounted(n, keys, limit, bs[0]);
      RunFromAccounted(Add(n, keys, limit, bs[0]).0, keys, limit, bs[1..]);
    }
  }

  /** A chain as rule 3 wants it: from d down prev to a genesis block, every block of it
      held, accepted and by d's author, and none but d a rotation. */
  ghost predicate Stem(n: Node, d: Digest, chain: seq<Digest>) {
    && chain != [] && chain[0] == d && d in n.blocks
    && (forall i :: 0 <= i < |chain| ==> chain[i] in n.blocks && Holds(n, chain[i], Valid) && n.blocks[chain[i]].pub == n.blocks[d].pub)
    && (forall i :: 0 < i < |chain| ==> !n.blocks[chain[i]].content.Rotation?)
    && (forall i :: 0 <= i < |chain| - 1 ==> n.blocks[chain[i]].prev == Some(chain[i + 1]))
    && n.blocks[chain[|chain| - 1]].prev.None?
  }

  lemma {:induction false} AccountedHasStem(n: Node, keys: Keyring, d: Digest)
    requires Accounted(n, keys) && Holds(n, d, Valid)
    ensures exists chain :: Stem(n, d, chain)
    decreases d
  {
    hide Passes;
    var b := n.blocks[d];
    assert d == BlockHash(b) && Upheld(n.blocks, Accepts(n), keys, b);
    if b.prev.None? {
      assert Stem(n, d, [d]);
    } else {
      AccountedHasStem(n, keys, b.prev.value);
      var rest :| Stem(n, b.prev.value, rest);
      assert Stem(n, d, [d] + rest);
    }
  }

  /** From an empty store, over any run of Adds, under any limit: every accepted block
      keeps rules 3, 4, 5 and 7 in the final store, and stands on an accepted chain of its
      own author down to a genesis block, with no rotation before it. */
  lemma AcceptedBlocksStand(keys: Keyring, limit: int, bs: seq<Block>, d: Digest)
    requires Holds(Run(Empty, keys, limit, bs), d, Valid)
    ensures var n := Run(Empty, keys, limit, bs);
      && d in n.blocks && d == BlockHash(n.blocks[d]) && Upheld(n.blocks, Accepts(n), keys, n.blocks[d])
      && exists chain :: Stem(n, d, chain)
  {
    hide Run, Upheld, Stem;
    assert Accounted(Empty, keys);
    assert Invariant(Empty, [], []);
    hide Invariant;
    RunFromAccounted(Empty, keys, limit, bs);
    AccountedHasStem(Run(Empty, keys, limit, bs), keys, d);
  }

  // ---- what one Add answers ----------------------------------------------------------

  /** The answer to an offered block, with no scan limit: an accepted block is a
      duplicate; any other is accepted exactly if it keeps every rule, refused only for a
      rule it breaks, and otherwise waits for a block or a key it truly wants. */
  ghost predicate Answered(n: Node, keys: Keyring, b: Block, a: Admission) {
    if Holds(n, BlockHash(b), Valid) then a == Admitted(Valid, true)
    else
      && (a == Admitted(Valid, false) <==> Acceptable(n.blocks, Accepts(n), keys, b))
      && match a
         case Refused(why) => why.Rejected? && Breaks(n.blocks, Accepts(n), keys, b, why.rule)
         case Admitted(entry, duplicate) =>
           && !duplicate
           && (entry.Pending? ==>
                 || (entry.why.Awaiting? && Wants(n.blocks, Accepts(n), keys, b, entry.why.block))
                 || (entry.why.NeedsKey? && WantsKey(n.blocks, keys, b, entry.why.block)))
  }

  lemma AddAnswers(n: Node, keys: Keyring, limit: int, b: Block)
    requires Sound(n.blocks) && limit < 0
    ensures Answered(n, keys, b, Add(n, keys, limit, b).1)
  {
    hide Judge, Acceptable, Breaks, Wants, WantsKey, MayExtend, Settle, Accepts;
    VerdictMeaning(n.blocks, Accepts(n), keys, limit, b);
  }

  /** The block is then held unless it was refused, an acceptance is on record, and no
      other block is new. */
  lemma AddRecords(n: Node, keys: Keyring, limit: int, b: Block)
    requires Accounted(n, keys)
    ensures var (m, a) := Add(n, keys, limit, b);
      && m.blocks == (if a.Refused? then n.blocks else n.blocks[BlockHash(b) := b])
      && (a.Admitted? && a.entry.Valid? ==> Holds(m, BlockHash(b), Valid))
  {
    hide Judge, Settle, Upheld;
    AdmitSound(n, keys, limit, b);
    var (n1, a) := Admit(n, keys, limit, b);
    if Holds(n, BlockHash(b), Valid) {
      assert n.blocks[BlockHash(b)] == b;
      assert n.blocks[BlockHash(b) := b] == n.blocks;
    }
    SettleKeepsBlocks(n1, keys, limit, [BlockHash(b)]);
    SettleKeepsVerdicts(n1, keys, limit, [BlockHash(b)]);
  }
}
