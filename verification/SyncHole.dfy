/** The input on which a sync that went well leaves a hole: a client asking after a position
    off the source's walk, and a block there whose refs name the walk's end. */
module SyncHole {
  import opened Blocks
  import opened Options
  import opened Search
  import opened Resolution
  import opened Validation
  import opened StoreModel
  import opened Walks
  import opened Servers
  import opened Completeness

  function Creating(refs: seq<Digest>): Content { Public(Payload(refs, [Create(Atom(""))])) }

  /** An operation that rests on a digest nobody can resolve, in a block that names a block
      nobody holds. */
  const Unresolved: Content := Public(Payload([Junk(0)], [Create(Molecule(JunkEntity(0), []))]))

  const First: Block := Block(0, None, Creating([]))
  /** The client's own branch: it cannot be decided. */
  const Side: Block := Block(0, Some(BlockHash(First)), Unresolved)
  /** The source's branch. */
  const Middle: Block := Block(0, Some(BlockHash(First)), Creating([]))
  const End: Block := Block(0, Some(BlockHash(Middle)), Creating([]))
  /** The next block of the client's branch, which breaks rule 10. */
  const Naming: Block := Block(0, Some(BlockHash(Side)), Creating([BlockHash(End)]))

  function SourceBlocks(): Blocks {
    map[BlockHash(First) := First, BlockHash(Side) := Side, BlockHash(Middle) := Middle, BlockHash(End) := End, BlockHash(Naming) := Naming]
  }

  function TipWalk(): seq<Digest> { [BlockHash(First), BlockHash(Middle), BlockHash(End)] }

  const G: Digest := BlockHash(First)
  const S: Digest := BlockHash(Side)

  /** A client that was offered the first block and then its own branch. */
  function Client(): Node {
    Node(map[G := First, S := Side], map[G := Valid, S := Pending(Awaiting(Junk(0)))], map[Junk(0) := [S]], {})
  }

  lemma OnlyJunkIsReached(keys: Keyring, d: Digest)
    requires Reachable(map[G := First], keys, [Junk(0)], d)
    ensures d == Junk(0)
  {
    var s := map[G := First];
    var p :| Path(s, keys, [Junk(0)], p) && p[|p| - 1] == d;
    assert |p| > 1 ==> p[1] in Out(s, keys, p[0]);
  }

  /** The client's own branch waits for the junk ref. */
  lemma SideWaits(keys: Keyring)
    ensures Judge(map[G := First], {G}, keys, -1, Side) == Awaiting(Junk(0))
  {
    var s, q, e := map[G := First], Query(Side.prev, [Junk(0)]), JunkEntity(0);
    UnlimitedAnswerIsReachability(s, keys, -1, q, {}, e);
    assert Path(s, keys, q.roots, [Junk(0)]) && [Junk(0)][0] == Junk(0);
    assert InSearch(s, keys, q, Junk(0)) && !Legible(s, keys, Junk(0));
    AncestorsHeld(s, q.prev);
    assert AncestorGap(s, q.prev) == None;
    var a := Answers(s, keys, -1, q, {}, e);
    assert a.Awaits?;
    if Reachable(s, keys, q.roots, a.missing) { OnlyJunkIsReached(keys, a.missing); }
    hide Answers, Judge;
    assert References(Unresolved.payload.ops[0]) == [Reference(e, BondKind)];
    assert CheckReferences(s, keys, -1, q, {}, [Reference(e, BondKind)]) == Awaiting(Junk(0));
    JudgedBy(keys, q);
  }

  lemma JudgedBy(keys: Keyring, q: Query)
    requires q == Query(Side.prev, [Junk(0)])
    requires CheckReferences(map[G := First], keys, -1, q, {}, [Reference(JunkEntity(0), BondKind)]) == Awaiting(Junk(0))
    ensures Judge(map[G := First], {G}, keys, -1, Side) == Awaiting(Junk(0))
  {
    hide Answers, CheckReferences;
    assert References(Unresolved.payload.ops[0]) == [Reference(JunkEntity(0), BondKind)];
    assert Hygiene(map[G := First], Side, [Junk(0)]) == Hygiene(map[G := First], Side, []);
  }

  lemma FirstIsAccepted(keys: Keyring)
    ensures Judge(map[], {}, keys, -1, First) == Accepted
  {
    var q := Query(None, []);
    assert References(First.content.payload.ops[0]) == [];
    assert CheckReferences(map[], keys, -1, q, {}, []) == Accepted;
    assert CheckOperations(map[], keys, -1, q, {} + Created([First.content.payload.ops[0]]), []) == Accepted;
  }

  /** A block that waits for one not held is kept, and nothing else moves, if nothing waits
      for it. */
  lemma KeptWaiting(n: Node, keys: Keyring, b: Block, d: Digest)
    requires Sound(n.blocks) && BlockHash(b) !in n.verdicts && BlockHash(b) !in n.waiting && d !in n.waiting && d != BlockHash(b)
    requires Judge(n.blocks, Accepts(n), keys, -1, b) == Awaiting(d)
    ensures Add(n, keys, -1, b) == (Node(n.blocks[BlockHash(b) := b], n.verdicts[BlockHash(b) := Pending(Awaiting(d))],
                                         n.waiting[d := [BlockHash(b)]], n.faulted), Admitted(Pending(Awaiting(d)), false))
  {
    hide Judge, Entries;
    AdmitSound(n, keys, -1, b);
    var m := Admit(n, keys, -1, b).0;
    assert m.waiting == n.waiting[d := [] + [BlockHash(b)]] && [] + [BlockHash(b)] == [BlockHash(b)];
    assert m == Node(n.blocks[BlockHash(b) := b], n.verdicts[BlockHash(b) := Pending(Awaiting(d))],
                     n.waiting[d := [BlockHash(b)]], n.faulted);
    SettleNothing(m, keys, BlockHash(b));
  }

  lemma SettleNothing(n: Node, keys: Keyring, x: Digest)
    requires Sound(n.blocks) && x !in n.waiting
    ensures Settle(n, keys, -1, [x]) == n
  {
    hide Judge, Entries;
    assert n.waiting - {x} == n.waiting && Take(n.waiting, x) == [];
    var taken := n.(waiting := n.waiting - {x});
    assert taken == n && Readmit(taken, keys, -1, []) == (n, []);
    assert [x][1..] + [] == [];
    EntriesTake(n.waiting, x);
    assert Settle(n, keys, -1, []) == n;
  }

  /** The client's state is what two Adds make of an empty store. */
  lemma ClientIsReached(keys: Keyring)
    ensures var one := Add(Empty, keys, -1, First).0; Sound(one.blocks) && Add(one, keys, -1, Side).0 == Client()
  {
    FirstIsAccepted(keys);
    SideWaits(keys);
    hide Judge, Entries;
    var one := Node(map[G := First], map[G := Valid], map[], {});
    assert Accepts(Empty) == {} && Accepts(one) == {G};
    SettleNothing(one, keys, G);
    assert Add(Empty, keys, -1, First).0 == one;
    KeptWaiting(one, keys, Side, Junk(0));
  }

  const M: Digest := BlockHash(Middle)
  const E: Digest := BlockHash(End)
  const N: Digest := BlockHash(Naming)

  /** The client, once it was given the end of the source's walk and then the block that
      names it. */
  function Left(): Node {
    var n := Client();
    Node(n.blocks[E := End][N := Naming], n.verdicts[E := Pending(Awaiting(M))][N := Pending(Awaiting(S))],
         n.waiting[M := [E]][S := [N]], {})
  }

  /** Offering that block resolves its ref first. Neither block is refused: both wait for
      a predecessor, so rule 10 is not reached. */
  lemma BothAreKept(keys: Keyring)
    ensures var (one, a) := Add(Client(), keys, -1, End);
      && Sound(one.blocks) && !a.Refused?
      && (var (two, b) := Add(one, keys, -1, Naming); two == Left() && !b.Refused?)
  {
    var n := Client();
    BothWait(keys);
    hide Add, Judge;
    KeptWaiting(n, keys, End, M);
    KeptWaiting(GivenEnd(), keys, Naming, S);
  }

  function GivenEnd(): Node {
    var n := Client();
    Node(n.blocks[E := End], n.verdicts[E := Pending(Awaiting(M))], n.waiting[M := [E]], {})
  }

  lemma BothWait(keys: Keyring)
    ensures Judge(Client().blocks, Accepts(Client()), keys, -1, End) == Awaiting(M)
    ensures Judge(GivenEnd().blocks, Accepts(GivenEnd()), keys, -1, Naming) == Awaiting(S)
  {
    hide CheckOperations, Hygiene;
  }

  lemma WalkBegins(s: Blocks, order: ByteOrder, pub: Key, pos: Option<Digest>, d: Digest)
    requires Sound(s) && Injective(order) && IsLeast(order, Holders(s, pub, pos), d)
    ensures Walk(s, order, pub, pos) == [d] + Walk(s, order, pub, Some(d))
  {
    LeastIsUnique(order, Holders(s, pub, pos), d, Branch(s, order, pub, pos));
  }

  lemma TheHolders()
    ensures Sound(SourceBlocks())
    ensures var s := SourceBlocks();
      && Holders(s, 0, None) == {G} && Holders(s, 0, Some(G)) == {M, S} && Holders(s, 0, Some(M)) == {E}
      && Holders(s, 0, Some(E)) == {} && Holders(s, 0, Some(S)) == {N} && Holders(s, 0, Some(N)) == {}
  {
  }

  lemma TheWalks(order: ByteOrder)
    requires Injective(order) && order(M) < order(S)
    ensures Sound(SourceBlocks())
    ensures Walk(SourceBlocks(), order, 0, None) == TipWalk() && Walk(SourceBlocks(), order, 0, Some(S)) == [N]
  {
    var s := SourceBlocks();
    TheHolders();
    hide Walk, Holders, Injective, SourceBlocks, Sound;
    WalkBegins(s, order, 0, None, G);
    WalkBegins(s, order, 0, Some(G), M);
    WalkBegins(s, order, 0, Some(M), E);
    WalkBegins(s, order, 0, Some(S), N);
    WalkHead(s, order, 0, Some(E));
    WalkHead(s, order, 0, Some(N));
  }

  /** The block names the end of the walk and nothing else. */
  lemma NamingBrings()
    ensures Brought(SourceBlocks(), true, [N]) == {N, E} && Brought(SourceBlocks(), true, []) == {}
  {
    var s := SourceBlocks();
    assert N in [N] && Names(s, N, E);
    assert forall r :: r in Named(s, [N]) ==> r == E;
  }

  lemma TheEndIsMet(a: set<Digest>, bound: nat)
    requires E in a && bound > 0
    ensures Met(a, TipWalk(), bound) == |TipWalk()|
  {
  }

  lemma TheClient(w: seq<Digest>)
    requires w == TipWalk()
    ensures PrevClosed(Client().blocks, 0) && HoleFree(Client().blocks, w)
    ensures Client().blocks.Keys == {G, S} && Left().blocks.Keys == {G, S, E, N}
  {
  }

  /** Completeness fails from a position off the source's walk. The client holds its chain
      without a hole and asks after a block it holds; every request is answered and no block
      is refused; the tip is held at the end, so there is no pursuit; and a block of the
      walk is missing. It is what `Reached` says, and `NoGap` fails. */
  lemma SyncCanLeaveAHole(order: ByteOrder, bound: nat)
    requires Injective(order) && order(M) < order(S) && bound > 0
    ensures Sound(SourceBlocks())
    ensures var s, h, k := SourceBlocks(), Client().blocks, Left().blocks;
      var w, served := Walk(s, order, 0, None), Walk(s, order, 0, Some(S));
      var a := h.Keys + Brought(s, true, served);
      && PrevClosed(h, 0) && HoleFree(h, w) && S in h
      && k.Keys == Reached(a, s, true, w, bound) && Met(a, w, bound) == |w|
      && E in k && Last(w, None) == Some(E) && M in w && M !in k && !HoldsAll(k, w) && !NoGap(a, s, true, w, bound)
  {
    TheWalks(order);
    NamingBrings();
    TheClient(TipWalk());
    TheEndIsMet({G, S} + {N, E}, bound);
    hide Walk, Brought, Met, SourceBlocks, Client, Left, PrevClosed, HoleFree, Sound, TipWalk, Reached, HoldsAll, NoGap;
    MiddleIsMissing(Left().blocks, SourceBlocks(), bound);
  }

  lemma MiddleIsMissing(k: Blocks, s: Blocks, bound: nat)
    requires k.Keys == {G, S, E, N} && Brought(s, true, []) == {} && Met({G, S} + {N, E}, TipWalk(), bound) == |TipWalk()|
    ensures var a, w := {G, S} + {N, E}, TipWalk();
      && k.Keys == Reached(a, s, true, w, bound) && Last(w, None) == Some(E) && E in k
      && M in w && M !in k && !HoldsAll(k, w) && !NoGap(a, s, true, w, bound)
  {
    var a, w := {G, S} + {N, E}, TipWalk();
    assert Named(s, []) <= Brought(s, true, []);
    hide Brought, Met, Named;
    assert w[1] == M && w[|w|..] == [] && M !in a;
    assert Named(s, []) == {};
  }
}
