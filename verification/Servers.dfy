/** A source of chains: a fixed store and the walk its tip and its ranges are read from.
    It answers honestly or, whenever `up` says so, not at all. */
module Servers {
  import opened Blocks
  import opened Options
  import opened Sorting
  import opened Stores
  import opened Walks

  /** A reply that came, or a request that failed. */
  datatype Reply<T> = Answer(value: T) | Failure

  function Digests(bs: seq<Block>): (w: seq<Digest>)
    ensures |w| == |bs|
  {
    seq(|bs|, i requires 0 <= i < |bs| => BlockHash(bs[i]))
  }

  lemma DigestsNext(bs: seq<Block>, b: Block)
    ensures Digests(bs + [b]) == Digests(bs) + [BlockHash(b)]
  {
  }

  /** Block i names the one before it, and has the author of the first. */
  predicate InPlace(bs: seq<Block>, after: Option<Digest>, i: nat)
    requires i < |bs|
  {
    bs[i].prev == (if i == 0 then after else Some(BlockHash(bs[i - 1]))) && bs[i].pub == bs[0].pub
  }

  /** A contiguous run of one author's blocks after a position. */
  ghost predicate RangeHolds(bs: seq<Block>, after: Option<Digest>) {
    forall i :: 0 <= i < |bs| ==> InPlace(bs, after, i)
  }

  /** The client's own check of a range. */
  method CheckRange(bs: seq<Block>, after: Option<Digest>) returns (ok: bool)
    ensures ok <==> RangeHolds(bs, after)
  {
    var want := after;
    for i := 0 to |bs|
      invariant want == if i == 0 then after else Some(BlockHash(bs[i - 1]))
      invariant forall k :: 0 <= k < i ==> InPlace(bs, after, k)
    {
      if bs[i].prev != want || (i > 0 && bs[i].pub != bs[0].pub) {
        assert !InPlace(bs, after, i);
        return false;
      }
      want := Some(BlockHash(bs[i]));
    }
    ok := true;
  }

  /** The blocks of a run, as they are sent. */
  ghost predicate Sends(s: Blocks, bs: seq<Block>, w: seq<Digest>) {
    Digests(bs) == w && forall i :: 0 <= i < |bs| ==> w[i] in s && s[w[i]] == bs[i]
  }

  lemma RunPasses(s: Blocks, pub: Key, pos: Option<Digest>, w: seq<Digest>, bs: seq<Block>)
    requires Sound(s) && IsRun(s, pub, pos, w) && Sends(s, bs, w)
    ensures RangeHolds(bs, pos) && forall i :: 0 <= i < |bs| ==> bs[i].pub == pub
  {
    forall i | 0 <= i < |bs| ensures InPlace(bs, pos, i) && bs[i].pub == pub {
      assert s[w[i]].prev == Last(w[..i], pos);
      if i > 0 { assert w[..i][|w[..i]| - 1] == w[i - 1]; }
    }
  }

  /** An honest page always passes the client's check. */
  lemma PagePasses(s: Blocks, order: ByteOrder, pub: Key, after: Option<Digest>, limit: nat, out: seq<Block>)
    requires Sound(s) && Sends(s, out, Page(s, order, pub, after, limit))
    ensures RangeHolds(out, after) && forall i :: 0 <= i < |out| ==> out[i].pub == pub
  {
    WalkIsRun(s, order, pub, after);
    var w, p := Walk(s, order, pub, after), Page(s, order, pub, after, limit);
    hide Walk, IsRun, Sound;
    assert p <= w;
    PrefixIsRun(s, pub, after, w, p);
    RunPasses(s, pub, after, p, out);
  }

  /** What is sent is the walk after the position, cut short only where a bound is met: the
      source's own where none was asked for, or else the lower of the two. */
  ghost predicate ServedWithin(s: Blocks, order: ByteOrder, pub: Key, after: Option<Digest>, limit: nat, preset: nat, cap: nat, out: seq<Block>)
    requires Sound(s)
  {
    var w := Walk(s, order, pub, after);
    && Digests(out) <= w
    && (if limit == 0 then |out| <= preset else |out| <= limit && |out| <= cap)
    && (|out| < |w| ==> if limit == 0 then |out| == preset else |out| == limit || |out| == cap)
  }

  lemma PageIsPrefix(s: Blocks, order: ByteOrder, pub: Key, after: Option<Digest>, limit: nat, out: seq<Block>)
    requires Sound(s) && Sends(s, out, Page(s, order, pub, after, limit))
    ensures Digests(out) <= Walk(s, order, pub, after) && |out| <= limit
    ensures |out| < |Walk(s, order, pub, after)| ==> |out| == limit
  {
    hide Walk, Sound;
  }

  /** The lowest digest of a list. */
  method Lowest(list: seq<Digest>, order: ByteOrder) returns (d: Digest)
    requires list != []
    ensures d in list && forall e :: e in list ==> order(d) <= order(e)
  {
    d := list[0];
    for i := 1 to |list|
      invariant d in list && forall e :: e in list[..i] ==> order(d) <= order(e)
    {
      if order(list[i]) < order(d) { d := list[i]; }
      assert list[..i + 1] == list[..i] + [list[i]];
    }
    assert list[..|list|] == list;
  }

  lemma LowestIsBranch(s: Blocks, order: ByteOrder, pub: Key, pos: Option<Digest>, list: seq<Digest>, d: Digest)
    requires Injective(order) && forall x :: x in list <==> x in s && s[x].pub == pub && s[x].prev == pos
    requires d in list && forall e :: e in list ==> order(d) <= order(e)
    ensures Holders(s, pub, pos) != {} && d == Branch(s, order, pub, pos)
  {
    assert d in Holders(s, pub, pos);
    LeastIsUnique(order, Holders(s, pub, pos), d, Branch(s, order, pub, pos));
  }

  lemma NoHolders(s: Blocks, pub: Key, pos: Option<Digest>, list: seq<Digest>)
    requires list == [] && forall x :: x in list <==> x in s && s[x].pub == pub && s[x].prev == pos
    ensures Holders(s, pub, pos) == {}
  {
    forall x ensures x !in Holders(s, pub, pos) {
      assert x !in list;
    }
  }

  lemma TipHere(s: Blocks, order: ByteOrder, pub: Key, pos: Option<Digest>)
    requires Sound(s) && Holders(s, pub, pos) == {}
    ensures Last(Walk(s, order, pub, pos), pos) == pos
  {
  }

  lemma TipAhead(s: Blocks, order: ByteOrder, pub: Key, pos: Option<Digest>, d: Digest)
    requires Sound(s) && Holders(s, pub, pos) != {} && d == Branch(s, order, pub, pos)
    ensures Last(Walk(s, order, pub, pos), pos) == Last(Walk(s, order, pub, Some(d)), Some(d))
    ensures |Above(s, Height(Some(d)))| < |Above(s, Height(pos))|
  {
    StepUp(s, pub, pos, d);
    assert Walk(s, order, pub, pos) == [d] + Walk(s, order, pub, Some(d));
  }

  /** The end of the forward walk from genesis, over any indexed store. */
  method TipOf(store: MemStore, order: ByteOrder, pub: Key) returns (tip: Option<Digest>)
    requires store.Valid() && Injective(order)
    ensures tip == Last(Walk(store.blocks, order, pub, None), None)
  {
    var pos: Option<Digest> := None;
    while true
      invariant Last(Walk(store.blocks, order, pub, pos), pos) == Last(Walk(store.blocks, order, pub, None), None)
      decreases |Above(store.blocks, Height(pos))|
    {
      hide Above, Height, Holders, Walk, Last, Sound;
      var next := store.BlocksWithPrev(pub, pos);
      if next == [] {
        NoHolders(store.blocks, pub, pos, next);
        TipHere(store.blocks, order, pub, pos);
        return pos;
      }
      var d := Lowest(next, order);
      LowestIsBranch(store.blocks, order, pub, pos, next, d);
      TipAhead(store.blocks, order, pub, pos, d);
      pos := Some(d);
    }
  }

  class Server {
    const store: MemStore
    const order: ByteOrder
    const defaultLimit: nat
    const maxLimit: nat
    /** Whether each request in turn gets through. */
    const up: nat -> bool
    var asked: nat

    constructor (held: MemStore, byteOrder: ByteOrder, preset: nat, cap: nat, through: nat -> bool)
      requires held.Valid() && Injective(byteOrder) && preset > 0 && cap > 0
      ensures Valid() && store == held && order == byteOrder && up == through
    {
      store, order, defaultLimit, maxLimit, up, asked := held, byteOrder, preset, cap, through, 0;
    }

    ghost predicate Valid()
      reads store
    {
      store.Valid() && Injective(order) && defaultLimit > 0 && maxLimit > 0
    }

    /** The walk this source's tip is the end of. */
    ghost function TipWalk(pub: Key): seq<Digest>
      requires Valid()
      reads store
    {
      Walk(store.blocks, order, pub, None)
    }

    /** How many blocks a range may hold: zero asks for the source's own choice. */
    function Granted(limit: nat): nat { if limit == 0 then defaultLimit else if limit < maxLimit then limit else maxLimit }

    /** Up to limit blocks after a position. */
    method Serve(pub: Key, after: Option<Digest>, limit: nat) returns (out: seq<Block>)
      requires Valid()
      ensures Sends(store.blocks, out, Page(store.blocks, order, pub, after, limit))
    {
      hide Walk, Sound, Holders, IsRun;
      out := [];
      var pos := after;
      ghost var w := Walk(store.blocks, order, pub, after);
      while |out| < limit
        invariant |out| <= limit && |out| <= |w| && pos == Last(w[..|out|], after)
        invariant Sends(store.blocks, out, w[..|out|])
      {
        WalkContinues(store.blocks, order, pub, after, |out|);
        ghost var rest := Walk(store.blocks, order, pub, pos);
        var next := store.BlocksWithPrev(pub, pos);
        WalkHead(store.blocks, order, pub, pos);
        if next == [] {
          NoHolders(store.blocks, pub, pos, next);
          assert w[..|w|] == w;
          return;
        }
        var d := Lowest(next, order);
        LowestIsBranch(store.blocks, order, pub, pos, next, d);
        assert d in store.blocks && d == w[|out|];
        SoundHere(store.blocks, d);
        SendsNext(store.blocks, out, w, store.blocks[d]);
        out := out + [store.blocks[d]];
        pos := Some(d);
      }
    }

    /** Whether this request gets through. */
    method Reach() returns (ok: bool)
      modifies this`asked
      ensures ok == up(old(asked))
    {
      ok := up(asked);
      asked := asked + 1;
    }

    method Tip(pub: Key) returns (r: Reply<Option<Digest>>)
      requires Valid()
      modifies this`asked
      ensures r == Answer(Last(TipWalk(pub), None)) || (r.Failure? && !up(old(asked)))
    {
      var ok := Reach();
      if !ok {
        return Failure;
      }
      var tip := TipOf(store, order, pub);
      r := Answer(tip);
    }

    /** A range as the client takes it: served, then checked. */
    method Range(pub: Key, after: Option<Digest>, limit: nat) returns (r: Reply<seq<Block>>)
      requires Valid()
      modifies this`asked
      ensures r.Answer? ==>
                && RangeHolds(r.value, after) && (forall i :: 0 <= i < |r.value| ==> r.value[i].pub == pub)
                && Sends(store.blocks, r.value, Page(store.blocks, order, pub, after, Granted(limit)))
      ensures r.Answer? ==> ServedWithin(store.blocks, order, pub, after, limit, defaultLimit, maxLimit, r.value)
      ensures r.Failure? ==> !up(old(asked))
    {
      var ok := Reach();
      if !ok {
        return Failure;
      }
      var n := Granted(limit);
      var out := Serve(pub, after, n);
      hide Sends, Page, RangeHolds;
      PagePasses(store.blocks, order, pub, after, n, out);
      PageIsPrefix(store.blocks, order, pub, after, n, out);
      var whole := CheckRange(out, after);
      if !whole || (out != [] && out[0].pub != pub) {
        return Failure;
      }
      r := Answer(out);
    }

    method Block(d: Digest) returns (r: Reply<Block>)
      requires Valid()
      modifies this`asked
      ensures r.Answer? ==> d in store.blocks && r.value == store.blocks[d]
      ensures r.Failure? ==> !up(old(asked)) || d !in store.blocks
    {
      var ok := Reach();
      if !ok || d !in store.blocks {
        return Failure;
      }
      r := Answer(store.blocks[d]);
    }

    /** The named blocks that are held. */
    method Fetch(wanted: seq<Digest>) returns (r: Reply<seq<Block>>)
      requires Valid()
      modifies this`asked
      ensures r.Answer? ==>
                && (forall b :: b in r.value ==> BlockHash(b) in store.blocks && BlockHash(b) in wanted)
                && (forall d :: d in wanted && d in store.blocks ==> store.blocks[d] in r.value)
      ensures r.Failure? ==> !up(old(asked))
    {
      var ok := Reach();
      if !ok {
        return Failure;
      }
      var out: seq<Block> := [];
      for i := 0 to |wanted|
        invariant forall b :: b in out ==> BlockHash(b) in store.blocks && BlockHash(b) in wanted
        invariant forall d :: d in wanted[..i] && d in store.blocks ==> store.blocks[d] in out
      {
        assert wanted[..i + 1] == wanted[..i] + [wanted[i]];
        if wanted[i] in store.blocks {
          SoundHere(store.blocks, wanted[i]);
          out := out + [store.blocks[wanted[i]]];
        }
      }
      assert wanted[..|wanted|] == wanted;
      r := Answer(out);
    }

    /** The blocks held at one position, by ascending digest, as the client takes them:
        served, then checked. */
    method Siblings(pub: Key, prev: Option<Digest>) returns (r: Reply<seq<Block>>)
      requires Valid()
      modifies this`asked
      ensures r.Answer? ==> SiblingsHold(r.value, pub, prev, order)
                            && forall d :: d in Holders(store.blocks, pub, prev) <==> d in Digests(r.value)
      ensures r.Answer? ==> forall b :: b in r.value ==> BlockHash(b) in store.blocks
      ensures r.Failure? ==> !up(old(asked))
    {
      var ok := Reach();
      if !ok {
        return Failure;
      }
      var list := store.BlocksWithPrev(pub, prev);
      ByDigestIsPreorder(order);
      var sorted := Sort(list, ByDigest(order));
      SortedByBytes(list, sorted, order);
      SameElements(list, sorted);
      var out := seq(|sorted|, i requires 0 <= i < |sorted| && sorted[i] in store.blocks reads store => store.blocks[sorted[i]]);
      SiblingsServed(store.blocks, pub, prev, sorted, out, order);
      var good := CheckSiblings(out, pub, prev, order);
      if !good {
        return Failure;
      }
      r := Answer(out);
    }
  }

  // ---- sibling sets -------------------------------------------------------------------

  predicate SiblingInPlace(bs: seq<Block>, pub: Key, prev: Option<Digest>, order: ByteOrder, i: nat)
    requires i < |bs|
  {
    bs[i].pub == pub && bs[i].prev == prev && (i > 0 ==> order(BlockHash(bs[i - 1])) < order(BlockHash(bs[i])))
  }

  /** A set of one author's blocks at one position, in strictly ascending digest order. */
  ghost predicate SiblingsHold(bs: seq<Block>, pub: Key, prev: Option<Digest>, order: ByteOrder) {
    forall i :: 0 <= i < |bs| ==> SiblingInPlace(bs, pub, prev, order, i)
  }

  /** The client's own check of a sibling set. */
  method CheckSiblings(bs: seq<Block>, pub: Key, prev: Option<Digest>, order: ByteOrder) returns (ok: bool)
    ensures ok <==> SiblingsHold(bs, pub, prev, order)
  {
    for i := 0 to |bs|
      invariant forall k :: 0 <= k < i ==> SiblingInPlace(bs, pub, prev, order, k)
    {
      if bs[i].pub != pub || bs[i].prev != prev || (i > 0 && order(BlockHash(bs[i - 1])) >= order(BlockHash(bs[i]))) {
        assert !SiblingInPlace(bs, pub, prev, order, i);
        return false;
      }
    }
    ok := true;
  }

  lemma SiblingsServed(s: Blocks, pub: Key, prev: Option<Digest>, sorted: seq<Digest>, out: seq<Block>, order: ByteOrder)
    requires Sound(s) && (forall d :: d in sorted <==> d in s && s[d].pub == pub && s[d].prev == prev)
    requires |out| == |sorted| && (forall i :: 0 <= i < |out| ==> out[i] == s[sorted[i]])
    requires forall i :: 0 < i < |sorted| ==> order(sorted[i - 1]) < order(sorted[i])
    ensures SiblingsHold(out, pub, prev, order) && forall d :: d in Holders(s, pub, prev) <==> d in Digests(out)
    ensures forall b :: b in out ==> BlockHash(b) in s
  {
    forall i | 0 <= i < |out| ensures BlockHash(out[i]) == sorted[i] && out[i].pub == pub && out[i].prev == prev {
      assert sorted[i] in sorted;
    }
    assert Digests(out) == sorted;
  }

  lemma SoundHere(s: Blocks, d: Digest)
    requires Sound(s) && d in s
    ensures BlockHash(s[d]) == d
  {
  }

  lemma WalkHead(s: Blocks, order: ByteOrder, pub: Key, pos: Option<Digest>)
    requires Sound(s)
    ensures var w := Walk(s, order, pub, pos);
      if Holders(s, pub, pos) == {} then w == [] else w != [] && w[0] == Branch(s, order, pub, pos)
  {
  }

  lemma SendsNext(s: Blocks, bs: seq<Block>, w: seq<Digest>, b: Block)
    requires |bs| < |w| && Sends(s, bs, w[..|bs|]) && w[|bs|] in s && s[w[|bs|]] == b && BlockHash(b) == w[|bs|]
    ensures Sends(s, bs + [b], w[..|bs| + 1])
  {
    DigestsNext(bs, b);
    assert w[..|bs| + 1] == w[..|bs|] + [w[|bs|]];
  }
}
