/** The two stores as objects: the indexed block store, and the store that validates
    what it is offered. */
module Stores {
  import opened Blocks
  import opened Options
  import opened Sorting
  import opened Validation
  import opened StoreModel
  import opened Acceptance

  /** A slot in an author's chain: the author and the predecessor a block claims. */
  datatype Position = Position(pub: Key, prev: Option<Digest>)

  function PositionOf(b: Block): Position { Position(b.pub, b.prev) }

  /** Distinct blocks of one author claiming one predecessor. */
  predicate IsFork(a: Block, b: Block) { a != b && a.pub == b.pub && a.prev == b.prev }

  ghost predicate PositionsIndexed(blocks: Blocks, position: map<Position, seq<Digest>>) {
    && (forall p, d :: p in position && d in position[p] ==> d in blocks && PositionOf(blocks[d]) == p)
    && (forall d :: d in blocks ==> PositionOf(blocks[d]) in position && d in position[PositionOf(blocks[d])])
    && (forall p :: p in position ==> NoRepeats(position[p]))
  }

  ghost predicate RefsIndexed(blocks: Blocks, referrers: map<Digest, seq<Digest>>) {
    forall r, d :: Filed(referrers, r, d) <==> d in blocks && r in VisibleRefs(blocks[d])
  }

  lemma PositionsAdd(blocks: Blocks, position: map<Position, seq<Digest>>, b: Block)
    requires PositionsIndexed(blocks, position) && BlockHash(b) !in blocks
    ensures var siblings := if PositionOf(b) in position then position[PositionOf(b)] else [];
      && PositionsIndexed(blocks[BlockHash(b) := b], position[PositionOf(b) := siblings + [BlockHash(b)]])
      && (siblings != [] <==> exists d :: d in blocks && blocks[d].pub == b.pub && blocks[d].prev == b.prev)
  {
    hide NoRepeats;
    var siblings := if PositionOf(b) in position then position[PositionOf(b)] else [];
    SiblingsHere(blocks, position, b);
    if siblings == [] { EmptyHasNone(); }
    assert NoRepeats(siblings) && BlockHash(b) !in siblings;
    NoRepeatsAppend(siblings, BlockHash(b));
    IndexedMore(blocks, position, b, siblings);
  }

  lemma IndexedMore(blocks: Blocks, position: map<Position, seq<Digest>>, b: Block, siblings: seq<Digest>)
    requires PositionsIndexed(blocks, position) && BlockHash(b) !in blocks
    requires siblings == (if PositionOf(b) in position then position[PositionOf(b)] else []) && NoRepeats(siblings + [BlockHash(b)])
    ensures PositionsIndexed(blocks[BlockHash(b) := b], position[PositionOf(b) := siblings + [BlockHash(b)]])
  {
    hide NoRepeats;
    var x, now, at := BlockHash(b), blocks[BlockHash(b) := b], position[PositionOf(b) := siblings + [BlockHash(b)]];
    forall p, d | p in at && d in at[p] ensures d in now && PositionOf(now[d]) == p {
      if d != x { assert p in position && d in position[p]; }
    }
    forall d | d in now ensures PositionOf(now[d]) in at && d in at[PositionOf(now[d])] {
      if d != x { assert d in position[PositionOf(blocks[d])]; }
    }
  }

  lemma SiblingsHere(blocks: Blocks, position: map<Position, seq<Digest>>, b: Block)
    requires PositionsIndexed(blocks, position)
    ensures (PositionOf(b) in position && position[PositionOf(b)] != [])
       <==> exists d :: d in blocks && blocks[d].pub == b.pub && blocks[d].prev == b.prev
  {
    hide NoRepeats;
    if PositionOf(b) in position && position[PositionOf(b)] != [] {
      var x := position[PositionOf(b)][0];
      assert x in position[PositionOf(b)] && PositionOf(blocks[x]) == PositionOf(b);
    }
    if d :| d in blocks && blocks[d].pub == b.pub && blocks[d].prev == b.prev {
      assert PositionOf(blocks[d]) == PositionOf(b) && d in position[PositionOf(b)];
    }
  }

  lemma EmptyHasNone()
    ensures NoRepeats<Digest>([])
  {
  }

  // ---- forks ------------------------------------------------------------------------

  function ByDigest(order: ByteOrder): (Digest, Digest) -> bool { (a, b) => order(a) <= order(b) }

  lemma ByDigestIsPreorder(order: ByteOrder)
    ensures TotalPreorder(ByDigest(order))
  {
  }

  /** Sorting distinct digests by their bytes leaves them strictly ascending. */
  lemma SortedByBytes(list: seq<Digest>, sorted: seq<Digest>, order: ByteOrder)
    requires Injective(order) && NoRepeats(list) && Sorted(sorted, ByDigest(order)) && multiset(sorted) == multiset(list)
    ensures BytesAscend(sorted, order) && forall i :: 0 < i < |sorted| ==> order(sorted[i - 1]) < order(sorted[i])
  {
    StillNoRepeats(list, sorted);
    forall i | 0 < i < |sorted| ensures order(sorted[i - 1]) < order(sorted[i]) {
      assert ByDigest(order)(sorted[i - 1], sorted[i]) && sorted[i - 1] != sorted[i];
    }
  }

  ghost predicate BytesAscend(s: seq<Digest>, order: ByteOrder) { forall i, j :: 0 <= i < j < |s| ==> order(s[i]) < order(s[j]) }

  method SortByBytes(list: seq<Digest>, order: ByteOrder) returns (r: seq<Digest>)
    requires Injective(order) && NoRepeats(list)
    ensures BytesAscend(r, order) && |r| == |list| && forall d :: d in r <==> d in list
  {
    ByDigestIsPreorder(order);
    r := Sort(list, ByDigest(order));
    SortedByBytes(list, r, order);
    SameElements(list, r);
  }

  /** Two held blocks claim the position. */
  ghost predicate ForkedAt(blocks: Blocks, p: Position) {
    exists a, b :: a in blocks && b in blocks && IsFork(blocks[a], blocks[b]) && PositionOf(blocks[a]) == p
  }

  /** A position that several blocks claim, and all of those held, by ascending digest. */
  datatype Fork = Fork(position: Position, blocks: seq<Digest>)

  ghost predicate IsForkAt(blocks: Blocks, order: ByteOrder, f: Fork) {
    |f.blocks| >= 2 && BytesAscend(f.blocks, order) && forall d :: d in f.blocks <==> d in blocks && PositionOf(blocks[d]) == f.position
  }

  ghost predicate ForksListed(blocks: Blocks, order: ByteOrder, forks: seq<Fork>) {
    && (forall f :: f in forks ==> IsForkAt(blocks, order, f))
    && (forall p :: ForkedAt(blocks, p) <==> exists f :: f in forks && f.position == p)
    && (forall i, j :: 0 <= i < j < |forks| ==> LowestOf(forks[i], order) < LowestOf(forks[j], order))
  }

  lemma ForkHere(blocks: Blocks, position: map<Position, seq<Digest>>, order: ByteOrder, p: Position, here: seq<Digest>)
    requires PositionsIndexed(blocks, position) && p in position && |position[p]| >= 2
    requires BytesAscend(here, order) && |here| == |position[p]| && forall d :: d in here <==> d in position[p]
    ensures IsForkAt(blocks, order, Fork(p, here))
  {
    hide NoRepeats, BytesAscend;
    forall d ensures d in here <==> d in blocks && PositionOf(blocks[d]) == p {
      if d in blocks { assert d in position[PositionOf(blocks[d])]; }
    }
  }

  lemma ForkIsForked(blocks: Blocks, order: ByteOrder, f: Fork)
    requires Sound(blocks) && IsForkAt(blocks, order, f)
    ensures ForkedAt(blocks, f.position)
  {
    var a, b := f.blocks[0], f.blocks[1];
    assert a in f.blocks && b in f.blocks && order(a) < order(b);
    assert IsFork(blocks[a], blocks[b]);
  }

  /** Forks compare by their lowest digest. */
  function LowestOf(f: Fork, order: ByteOrder): nat { if f.blocks == [] then 0 else order(f.blocks[0]) }

  function ByLowest(order: ByteOrder): (Fork, Fork) -> bool { (f, g) => LowestOf(f, order) <= LowestOf(g, order) }

  method SortForks(ghost blocks: Blocks, order: ByteOrder, forks: seq<Fork>) returns (r: seq<Fork>)
    requires Injective(order) && forall f :: f in forks ==> IsForkAt(blocks, order, f)
    requires forall i, j :: 0 <= i < j < |forks| ==> forks[i].position != forks[j].position
    ensures (forall f :: f in r <==> f in forks) && forall i, j :: 0 <= i < j < |r| ==> LowestOf(r[i], order) < LowestOf(r[j], order)
  {
    assert TotalPreorder(ByLowest(order));
    r := Sort(forks, ByLowest(order));
    ForksAscend(blocks, order, forks, r);
  }

  /** No digest belongs to two positions, so the lowest digests are all different. */
  lemma ForksAscend(blocks: Blocks, order: ByteOrder, forks: seq<Fork>, r: seq<Fork>)
    requires Injective(order) && forall f :: f in forks ==> IsForkAt(blocks, order, f)
    requires forall i, j :: 0 <= i < j < |forks| ==> forks[i].position != forks[j].position
    requires Sorted(r, ByLowest(order)) && multiset(r) == multiset(forks)
    ensures (forall f :: f in r <==> f in forks) && forall i, j :: 0 <= i < j < |r| ==> LowestOf(r[i], order) < LowestOf(r[j], order)
  {
    SameElements(r, forks);
    StillNoRepeats(forks, r);
    forall i, j | 0 <= i < j < |r| ensures LowestOf(r[i], order) < LowestOf(r[j], order) {
      assert r[i] in forks && r[j] in forks && r[i] != r[j];
      var m :| 0 <= m < |forks| && forks[m] == r[i];
      var n :| 0 <= n < |forks| && forks[n] == r[j];
      assert m != n && r[i].position != r[j].position;
      assert IsForkAt(blocks, order, r[i]) && IsForkAt(blocks, order, r[j]);
      assert r[i].blocks[0] in r[i].blocks && r[j].blocks[0] in r[j].blocks;
      assert ByLowest(order)(r[i], r[j]);
    }
  }

  lemma ForkedPosition(blocks: Blocks, position: map<Position, seq<Digest>>, p: Position)
    requires Sound(blocks) && PositionsIndexed(blocks, position)
    ensures (p in position && |position[p]| >= 2) <==> ForkedAt(blocks, p)
  {
    if p in position && |position[p]| >= 2 {
      var list := position[p];
      assert list[0] in list && list[1] in list;
      assert IsFork(blocks[list[0]], blocks[list[1]]);
    }
    if a, b :| a in blocks && b in blocks && IsFork(blocks[a], blocks[b]) && PositionOf(blocks[a]) == p {
      TwoMembers(position[p], a, b);
    }
  }

  lemma TwoMembers(list: seq<Digest>, a: Digest, b: Digest)
    requires a in list && b in list && a != b
    ensures |list| >= 2
  {
    var i :| 0 <= i < |list| && list[i] == a;
    var j :| 0 <= j < |list| && list[j] == b;
    assert i != j;
  }

  class MemStore {
    var blocks: Blocks
    var position: map<Position, seq<Digest>>
    var referrers: map<Digest, seq<Digest>>

    ghost predicate Valid()
      reads this
    {
      Sound(blocks) && PositionsIndexed(blocks, position) && RefsIndexed(blocks, referrers)
    }

    constructor ()
      ensures Valid() && blocks == map[]
    {
      blocks, position, referrers := map[], map[], map[];
    }

    /** Stores a block; answers whether it forks with one already held. */
    method Add(b: Block) returns (fork: bool)
      requires Valid()
      modifies this
      ensures Valid() && blocks == old(blocks)[BlockHash(b) := b]
      ensures fork <==> BlockHash(b) !in old(blocks) && exists d :: d in old(blocks) && IsFork(old(blocks)[d], b)
    {
      var d := BlockHash(b);
      if d in blocks {
        assert blocks[d] == b && blocks[d := b] == blocks;
        return false;
      }
      hide Sound, PositionsIndexed, VisibleRefs;
      PositionsAdd(blocks, position, b);
      SoundAdd(blocks, b);
      AddReferrers(b);
      var siblings := if PositionOf(b) in position then position[PositionOf(b)] else [];
      blocks := blocks[d := b];
      position := position[PositionOf(b) := siblings + [d]];
      return siblings != [];
    }

    /** Enters a new block in the reverse index of its refs. */
    method AddReferrers(b: Block)
      modifies this`referrers
      ensures forall r, d :: Filed(referrers, r, d) <==>
                Filed(old(referrers), r, d) || (d == BlockHash(b) && r in VisibleRefs(b))
    {
      var refs := VisibleRefs(b);
      for i := 0 to |refs|
        invariant forall r, d :: Filed(referrers, r, d) <==>
                    Filed(old(referrers), r, d) || (d == BlockHash(b) && r in refs[..i])
      {
        var listed := if refs[i] in referrers then referrers[refs[i]] else [];
        referrers := referrers[refs[i] := listed + [BlockHash(b)]];
        assert refs[..i + 1] == refs[..i] + [refs[i]];
      }
      assert refs[..|refs|] == refs;
    }

    /** The held blocks of an author claiming a predecessor, each once. */
    method BlocksWithPrev(pub: Key, prev: Option<Digest>) returns (list: seq<Digest>)
      requires Valid()
      ensures NoRepeats(list) && forall d :: d in list <==> d in blocks && blocks[d].pub == pub && blocks[d].prev == prev
      ensures list == if Position(pub, prev) in position then position[Position(pub, prev)] else []
    {
      var p := Position(pub, prev);
      list := if p in position then position[p] else [];
    }

    /** Every fork held, each with its blocks, by the lowest digest of each: stores with the
        same blocks list the same, whatever order the blocks came in. */
    method Forks(order: ByteOrder) returns (forks: seq<Fork>)
      requires Valid() && Injective(order)
      ensures ForksListed(blocks, order, forks)
    {
      hide Sound, NoRepeats;
      forks := [];
      var left := position.Keys;
      while left != {}
        invariant left <= position.Keys
        invariant forall f :: f in forks ==> f.position in position.Keys - left && IsForkAt(blocks, order, f)
        invariant forall p :: p in position.Keys - left && |position[p]| >= 2 ==> exists f :: f in forks && f.position == p
        invariant forall i, j :: 0 <= i < j < |forks| ==> forks[i].position != forks[j].position
        decreases left
      {
        var p :| p in left;
        left := left - {p};
        if |position[p]| >= 2 {
          var here := SortByBytes(position[p], order);
          ForkHere(blocks, position, order, p, here);
          ghost var before := forks;
          forks := forks + [Fork(p, here)];
          assert Fork(p, here) in forks && forall f :: f in before ==> f in forks;
        }
      }
      hide PositionsIndexed, RefsIndexed, IsForkAt, ForkedAt;
      ghost var found := forks;
      forks := SortForks(blocks, order, forks);
      assert forall f :: f in forks <==> f in found;
      forall p ensures (p in position && |position[p]| >= 2) <==> ForkedAt(blocks, p) {
        ForkedPosition(blocks, position, p);
      }
      forall p ensures ForkedAt(blocks, p) <==> exists f :: f in forks && f.position == p {
        if f :| f in forks && f.position == p { assert f in found; ForkIsForked(blocks, order, f); }
      }
    }

    /** The held blocks whose refs can be seen to name d. */
    method BlocksReferencing(d: Digest) returns (list: seq<Digest>)
      requires Valid()
      ensures forall x :: x in list <==> x in blocks && d in VisibleRefs(blocks[x])
    {
      list := if d in referrers then referrers[d] else [];
      assert forall x :: x in list <==> Filed(referrers, d, x);
    }
  }

  lemma SoundAdd(blocks: Blocks, b: Block)
    requires Sound(blocks) && BlockHash(b) !in blocks
    ensures Sound(blocks[BlockHash(b) := b]) && forall d :: d in blocks ==> blocks[d] != b
  {
  }

  class ValidatingStore {
    const store: MemStore
    const keys: Keyring
    const limit: int
    var verdicts: map<Digest, Entry>
    var waiting: map<Digest, seq<Digest>>
    ghost var faulted: set<Digest>

    ghost function State(): Node
      reads this, store
    {
      Node(store.blocks, verdicts, waiting, faulted)
    }

    ghost predicate Valid()
      reads this, store
    {
      store.Valid() && Accounted(State(), keys)
    }

    constructor (keyring: Keyring, lim: int)
      ensures Valid() && fresh(store) && State() == Empty && keys == keyring && limit == lim
    {
      store := new MemStore();
      keys, limit := keyring, lim;
      verdicts, waiting, faulted := map[], map[], {};
    }

    /** The accepted blocks. */
    function Accepted(): set<Digest>
      reads this
    {
      set d | d in verdicts && verdicts[d].Valid?
    }

    method FileUnder(awaited: Digest, d: Digest)
      modifies this`waiting
      ensures waiting == File(old(waiting), awaited, d)
    {
      var held := if awaited in waiting then waiting[awaited] else [];
      if d !in held {
        waiting := waiting[awaited := held + [d]];
      }
    }

    /** Writes a verdict and files an undecided block; an accepted one is never
        written over. */
    method Record(d: Digest, e: Entry)
      modifies this`verdicts, this`waiting
      ensures if Holds(old(State()), d, Entry.Valid) then State() == old(State()) else
              (verdicts == old(verdicts)[d := e]
                && waiting == (if e.Pending? && e.why.Awaiting? then File(old(waiting), e.why.block, d) else old(waiting)))
    {
      if d in verdicts && verdicts[d].Valid? { return; }
      verdicts := verdicts[d := e];
      if e.Pending? && e.why.Awaiting? { FileUnder(e.why.block, d); }
    }

    method AdmitBlock(b: Block) returns (a: Admission)
      requires Valid()
      modifies this, store
      ensures Valid() && (State(), a) == Admit(old(State()), keys, limit, b)
    {
      hide Judge, Accounted;
      AdmitAccounted(State(), keys, limit, b);
      AccountedSound(State(), keys);
      var d := BlockHash(b);
      if d in verdicts && verdicts[d].Valid? {
        return Admitted(Entry.Valid, true);
      }
      assert Accepted() == Accepts(State());
      var o, _, _ := Validate(b, store.blocks, Accepted(), keys, limit);
      if !o.Accepted? && !o.Undecided() {
        faulted := faulted + (if d in store.blocks then {d} else {});
        return Refused(o);
      }
      var _ := store.Add(b);
      var e := if o.Accepted? then Entry.Valid else Pending(o);
      Record(d, e);
      return Admitted(e, false);
    }

    method TakeWaiting(d: Digest) returns (held: seq<Digest>)
      modifies this`waiting
      ensures held == Take(old(waiting), d) && waiting == old(waiting) - {d}
    {
      held := if d in waiting then waiting[d] else [];
      waiting := waiting - {d};
    }

    /** Readmits the taken blocks that are held, in order; those found valid join the
        worklist. */
    method ReadmitAll(held: seq<Digest>, queue: seq<Digest>) returns (longer: seq<Digest>)
      requires Valid()
      modifies this, store
      ensures Valid() && (State(), longer) == (Readmit(old(State()), keys, limit, held).0,
                                               queue + Readmit(old(State()), keys, limit, held).1)
    {
      hide Admit, Accounted;
      AccountedSound(State(), keys);
      longer := queue;
      ghost var target := Readmit(State(), keys, limit, held);
      assert held[0..] == held && queue + target.1 == longer + target.1;
      for i := 0 to |held|
        invariant Valid()
        invariant var rest := Readmit(State(), keys, limit, held[i..]);
          rest.0 == target.0 && longer + rest.1 == queue + target.1
      {
        assert held[i..][0] == held[i] && held[i..][1..] == held[i + 1..];
        if held[i] in store.blocks {
          ghost var here := State();
          AdmitSound(here, keys, limit, here.blocks[held[i]]);
          var a := AdmitBlock(store.blocks[held[i]]);
          ghost var rest := Readmit(State(), keys, limit, held[i + 1..]);
          if a.Admitted? && a.entry.Valid? {
            assert longer + ([held[i]] + rest.1) == longer + [held[i]] + rest.1;
            longer := longer + [held[i]];
          }
        }
      }
      assert longer + [] == longer;
    }

    /** Revalidates everything the arrival of a block can settle. */
    method SettleFrom(arrived: Digest)
      requires Valid()
      modifies this, store
      ensures Valid() && State() == Settle(old(State()), keys, limit, [arrived])
    {
      hide Admit, Entries, Readmit, Accounted;
      AccountedSound(State(), keys);
      var queue := [arrived];
      while |queue| > 0
        invariant Valid() && Settle(State(), keys, limit, queue) == old(Settle(State(), keys, limit, [arrived]))
        decreases Entries(waiting) + |queue|
      {
        var d := queue[0];
        ghost var n := State();
        ghost var taken := n.(waiting := n.waiting - {d});
        EntriesTake(waiting, d);
        ReadmitBounds(taken, keys, limit, Take(waiting, d));
        TakenAccounted(n, keys, d);
        var held := TakeWaiting(d);
        queue := ReadmitAll(held, queue[1..]);
      }
    }

    /** Offers a block: validates it, records the verdict, keeps the block unless it
        is invalid, and settles what waited for it. */
    method Offer(b: Block) returns (a: Admission)
      requires Valid()
      modifies this, store
      ensures Valid() && (State(), a) == Add(old(State()), keys, limit, b)
      ensures limit < 0 ==> Answered(old(State()), keys, b, a)
      ensures store.blocks == (if a.Refused? then old(store.blocks) else old(store.blocks)[BlockHash(b) := b])
      ensures a.Admitted? && a.entry.Valid? ==> BlockHash(b) in Accepted()
    {
      hide Admit, Settle, Accounted, Answered;
      AccountedSound(State(), keys);
      AddRecords(State(), keys, limit, b);
      if limit < 0 { AddAnswers(State(), keys, limit, b); }
      AdmitSound(State(), keys, limit, b);
      a := AdmitBlock(b);
      if a.Refused? || a.duplicate { return; }
      SettleFrom(BlockHash(b));
    }
  }
}
