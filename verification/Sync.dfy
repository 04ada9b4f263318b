/** Chain sync: a client's validating store, filled from sources that answer with ranges
    and single blocks. Its methods reach exactly the states `Completeness` is about. */
module Sync {
  import opened Blocks
  import opened Options
  import opened Stores
  import opened StoreModel
  import opened Walks
  import opened Servers
  import opened Completeness
  import opened SyncFacts

  const MAX_PAGES: nat := 1024
  const MAX_PURSUIT: nat := 256

  class Syncer {
    const store: ValidatingStore
    const order: ByteOrder
    const pageLimit: nat
    const maxPages: nat
    const maxPursuit: nat
    const resolve: bool
    const fromHeldPosition: bool
    /** Per source and author, the last block the source handed over. */
    var resume: map<Slot, Digest>
    /** How many offered blocks the store refused and does not hold. */
    ghost var refusals: nat

    constructor (vs: ValidatingStore, byteOrder: ByteOrder, limit: nat, pages: nat, pursuit: nat, refs: bool, held: bool)
      requires vs.Valid() && Injective(byteOrder)
      ensures Valid() && store == vs && resume == map[] && order == byteOrder
    {
      store, order, pageLimit, maxPages, maxPursuit := vs, byteOrder, limit, pages, pursuit;
      resolve, fromHeldPosition, resume, refusals := refs, held, map[], 0;
    }

    ghost predicate Valid()
      reads store, store.store
    {
      store.Valid() && Injective(order)
    }

    ghost function Held(): Blocks
      reads store.store
    {
      store.store.blocks
    }

    /** A source apart from the client's own store. */
    ghost predicate Apart(src: Server)
      reads src.store
    {
      src.Valid() && src.store != store.store
    }

    /** The store's Add, as the syncer calls it. */
    method Give(b: Block)
      requires Valid()
      modifies this`refusals, store, store.store
      ensures Valid() && refusals >= old(refusals)
      ensures Held() == old(Held()) || Held() == old(Held())[BlockHash(b) := b]
      ensures refusals == old(refusals) ==> BlockHash(b) in Held()
    {
      hide Add;
      AddHolds(store.State(), store.keys, store.limit, b);
      var _ := store.Offer(b);
      if BlockHash(b) !in store.store.blocks {
        refusals := refusals + 1;
      }
    }

    /** Gives the store blocks a source handed over. */
    method GiveAll(bs: seq<Block>)
      requires Valid()
      modifies this`refusals, store, store.store
      ensures Valid() && refusals >= old(refusals) && Given(old(Held()), Held(), Digests(bs), refusals == old(refusals))
    {
      hide Digests;
      GivenNothing(Held());
      for i := 0 to |bs|
        invariant Valid() && refusals >= old(refusals)
        invariant Given(old(Held()), Held(), Digests(bs[..i]), refusals == old(refusals))
      {
        ghost var k, clean := Held(), refusals == old(refusals);
        Give(bs[i]);
        GivenOne(old(Held()), k, Held(), bs, i, clean, refusals == old(refusals));
      }
      assert bs[..|bs|] == bs;
    }

    /** Fetches the blocks a block's refs name that the store does not hold. */
    method ResolveRefs(src: Server, b: Block)
      requires Valid() && Apart(src) && BlockHash(b) in src.store.blocks
      modifies this`refusals, store, store.store, src`asked
      ensures Valid() && Apart(src) && refusals >= old(refusals)
      ensures Sound(Held()) && Extends(old(Held()), Held())
      ensures Held().Keys <= old(Held()).Keys + Named(src.store.blocks, [BlockHash(b)])
      ensures refusals == old(refusals) && AlwaysUp(src) ==> Named(src.store.blocks, [BlockHash(b)]) <= Held().Keys
    {
      var refs, missing: seq<Digest> := VisibleRefs(b), [];
      for i := 0 to |refs|
        invariant forall r :: r in missing ==> r in refs
        invariant forall r :: r in refs[..i] ==> r in missing || r in Held()
      {
        assert refs[..i + 1] == refs[..i] + [refs[i]];
        if refs[i] !in store.store.blocks && refs[i] !in missing {
          missing := missing + [refs[i]];
        }
      }
      assert refs[..|refs|] == refs;
      SoundHere(src.store.blocks, BlockHash(b));
      NamedByOne(src.store.blocks, b);
      hide Sound, Named, VisibleRefs;
      if missing == [] {
        return;
      }
      var fetched := src.Fetch(missing);
      if fetched.Failure? {
        return;
      }
      ghost var h := Held();
      GiveAll(fetched.value);
      FetchedGiven(h, Held(), src.store.blocks, refs, missing, fetched.value, refusals == old(refusals));
    }

    /** Resolves what a block's refs need, then hands it to the store. */
    method Offer(src: Server, b: Block)
      requires Valid() && Apart(src) && BlockHash(b) in src.store.blocks
      modifies this`refusals, store, store.store, src`asked
      ensures Valid() && Apart(src) && refusals >= old(refusals)
      ensures Took(old(Held()), Held(), src.store.blocks, resolve, [BlockHash(b)], refusals == old(refusals), AlwaysUp(src))
    {
      hide Named, Took, AlwaysUp;
      ghost var h := Held();
      if resolve {
        ResolveRefs(src, b);
      }
      ghost var m := Held();
      Give(b);
      OfferTook(h, m, Held(), src.store.blocks, resolve, b, refusals == old(refusals), AlwaysUp(src));
    }

    /** Offers blocks in the order they came. */
    method OfferAll(src: Server, bs: seq<Block>)
      requires Valid() && Apart(src) && forall b :: b in bs ==> BlockHash(b) in src.store.blocks
      modifies this`refusals, store, store.store, src`asked
      ensures Valid() && Apart(src) && refusals >= old(refusals)
      ensures Took(old(Held()), Held(), src.store.blocks, resolve, Digests(bs), refusals == old(refusals), AlwaysUp(src))
    {
      hide Took, Digests;
      TookNone(Held(), src.store.blocks, resolve, AlwaysUp(src));
      for i := 0 to |bs|
        invariant Valid() && Apart(src) && refusals >= old(refusals)
        invariant Took(old(Held()), Held(), src.store.blocks, resolve, Digests(bs[..i]), refusals == old(refusals), AlwaysUp(src))
      {
        ghost var k, clean, before := Held(), refusals == old(refusals), refusals;
        Offer(src, bs[i]);
        TookOne(old(Held()), k, Held(), src.store.blocks, resolve, bs, i, clean, refusals == before, refusals == old(refusals), AlwaysUp(src));
      }
      assert bs[..|bs|] == bs;
    }

    /** Offers a backward walk's blocks in chain order, the reverse of the order fetched. */
    method OfferWalk(src: Server, walked: seq<Block>) returns (offered: seq<Digest>)
      requires Valid() && Apart(src) && forall b :: b in walked ==> BlockHash(b) in src.store.blocks
      modifies this`refusals, store, store.store, src`asked
      ensures Valid() && Apart(src) && refusals >= old(refusals) && offered == Digests(Reversed(walked))
      ensures Took(old(Held()), Held(), src.store.blocks, resolve, offered, refusals == old(refusals), AlwaysUp(src))
    {
      hide Took, AlwaysUp, Sound, Extends, Named;
      offered := [];
      TookNothing(Held(), src.store.blocks, resolve, true, AlwaysUp(src));
      for i := |walked| downto 0
        invariant Valid() && Apart(src) && refusals >= old(refusals)
        invariant offered == Digests(Reversed(walked))[..|walked| - i]
        invariant Took(old(Held()), Held(), src.store.blocks, resolve, offered, refusals == old(refusals), AlwaysUp(src))
      {
        ghost var k, clean, before := Held(), refusals == old(refusals), refusals;
        Offer(src, walked[i]);
        TookMore(old(Held()), k, Held(), src.store.blocks, resolve, offered, [BlockHash(walked[i])],
                 clean, refusals == before, refusals == old(refusals), AlwaysUp(src));
        offered := offered + [BlockHash(walked[i])];
      }
    }

    /** Fetches backward from a tip, one block at a time, until a held block or genesis. */
    method WalkBack(src: Server, pub: Key, tip: Digest)
      returns (walked: seq<Block>, end: PursuitEnd, ghost reached: Option<Digest>)
      requires Valid() && Apart(src) && tip !in Held()
      modifies src`asked
      ensures Held() == old(Held()) && Valid() && Apart(src) && end != NoPursuit
      ensures Trail(src.store.blocks, pub, walked, tip, reached) && |walked| <= PursuitBound()
      ensures forall b :: b in walked ==> BlockHash(b) !in Held()
      ensures end == ReachedHeld ==> reached.Some? && reached.value in Held()
      ensures end == ReachedGenesis ==> reached.None?
      ensures end == PursuitFailed ==> reached.Some? && reached.value !in Held()
      ensures end == PursuitFailed && AlwaysUp(src) && Some(tip) == Last(src.TipWalk(pub), None) ==> |walked| == PursuitBound()
    {
      hide Sound, Extends, Walk, Trail;
      var limit := PursuitBound();
      var target := tip;
      walked, end, reached := [], ReachedHeld, Some(tip);
      NoTrail(src.store.blocks, pub, tip);
      while target !in store.store.blocks
        invariant Held() == old(Held()) && Valid() && Apart(src) && end == ReachedHeld && reached == Some(target)
        invariant |walked| <= limit && Trail(src.store.blocks, pub, walked, tip, reached)
        invariant forall b :: b in walked ==> BlockHash(b) !in Held()
        decreases limit - |walked|
      {
        if |walked| >= limit {
          end := PursuitFailed;
          return;
        }
        TrailTarget(src, pub, tip, walked, target);
        var b := src.Block(target);
        if b.Failure? || b.value.pub != pub {
          end := PursuitFailed;
          return;
        }
        SoundHere(src.store.blocks, target);
        TrailNext(src.store.blocks, pub, walked, tip, target, b.value);
        walked := walked + [b.value];
        reached := b.value.prev;
        if b.value.prev.None? {
          end := ReachedGenesis;
          return;
        }
        target := b.value.prev.value;
      }
    }

    /** Follows an advertised tip backward and offers whatever the walk obtained. */
    method Pursue(src: Server, pub: Key, tip: Digest) returns (pursued: seq<Digest>, end: PursuitEnd)
      requires Valid() && Apart(src) && tip !in Held() && Some(tip) == Last(src.TipWalk(pub), None)
      modifies this`refusals, store, store.store, src`asked
      ensures Valid() && Apart(src) && refusals >= old(refusals) && end != NoPursuit
      ensures Took(old(Held()), Held(), src.store.blocks, resolve, pursued, refusals == old(refusals), AlwaysUp(src))
      ensures Backed(old(Held()), src.TipWalk(pub), SourceSync(true, end, [], pursued), PursuitBound(), AlwaysUp(src))
    {
      hide Sound, Took, Trail, Walk, Backed, Reversed;
      var walked: seq<Block>;
      ghost var reached;
      walked, end, reached := WalkBack(src, pub, tip);
      TrailHeld(src.store.blocks, pub, walked, tip, reached);
      TrailIsBacked(src, pub, tip, walked, reached, Held(), end, PursuitBound());
      pursued := OfferWalk(src, walked);
    }

    /** The end of the client's own forward walk. */
    method HeldTip(pub: Key) returns (tip: Option<Digest>)
      requires Valid()
      ensures tip == Last(Walk(Held(), order, pub, None), None)
    {
      tip := TipOf(store.store, order, pub);
    }

    /** Where a source is asked from: after the last block it handed over, or else from
        the client's own end or from genesis. */
    ghost function AskedFrom(index: nat, pub: Key): Option<Digest>
      requires Valid()
      reads this, store, store.store
    {
      if Slot(index, pub) in resume then Some(resume[Slot(index, pub)])
      else if fromHeldPosition then Last(Walk(Held(), order, pub, None), None) else None
    }

    method FirstPosition(index: nat, pub: Key) returns (after: Option<Digest>)
      requires Valid()
      ensures after == AskedFrom(index, pub)
      ensures ResumeHeld(resume, Held()) ==> PositionHeld(Held(), after)
    {
      after := if Slot(index, pub) in resume then Some(resume[Slot(index, pub)]) else None;
      if after.None? && fromHeldPosition {
        after := HeldTip(pub);
        WalkIsRun(store.store.blocks, order, pub, None);
      }
    }

    /** One range request: its blocks are offered, and where the next one starts is
        remembered. */
    method ReadPage(index: nat, src: Server, pub: Key, after: Option<Digest>) returns (r: Reply<seq<Digest>>)
      requires Valid() && Apart(src)
      modifies this, store, store.store, src`asked
      ensures Valid() && Apart(src) && refusals >= old(refusals)
      ensures var ds := if r.Answer? then r.value else [];
        && Took(old(Held()), Held(), src.store.blocks, resolve, ds, refusals == old(refusals), AlwaysUp(src))
        && resume == Resumed(old(resume), Slot(index, pub), ds)
      ensures r.Answer? ==> r.value == Page(src.store.blocks, src.order, pub, after, src.Granted(pageLimit))
      ensures r.Failure? ==> !AlwaysUp(src)
    {
      hide Took, RangeHolds, Page, ServedWithin;
      TookNothing(Held(), src.store.blocks, resolve, true, AlwaysUp(src));
      var blocks := src.Range(pub, after, pageLimit);
      if blocks.Failure? {
        return Failure;
      }
      SentIsHeld(src.store.blocks, blocks.value, Page(src.store.blocks, src.order, pub, after, src.Granted(pageLimit)));
      OfferAll(src, blocks.value);
      var page := Digests(blocks.value);
      if blocks.value != [] {
        resume := resume[Slot(index, pub) := BlockHash(blocks.value[|blocks.value| - 1])];
      }
      r := Answer(page);
    }

    /** All that this source's ranges after a position may hold: as many pages as the
        client asks for at most. */
    ghost function Served(src: Server, pub: Key, first: Option<Digest>): seq<Digest>
      requires src.Valid()
      reads src.store
    {
      Upto(Walk(src.store.blocks, src.order, pub, first), Reach(src))
    }

    /** How many blocks the ranges of one sync may hold in all. */
    function Reach(src: Server): nat { Asked(PageBound(), src.Granted(pageLimit)) }

    /** One turn of reading ranges: a page, and whether another is due. */
    method ReadNext(index: nat, src: Server, pub: Key, tip: Digest, page: nat, ranged: seq<Digest>, after: Option<Digest>,
                    ghost c: Reading, ghost clean: bool)
      returns (now: seq<Digest>, next: Option<Digest>, turn: Turn)
      requires Valid() && Apart(src) && Some(tip) == Last(src.TipWalk(pub), None)
      requires Fits(c, src, index, pub, src.Granted(pageLimit), resolve) && page < c.pages
      requires ReadSoFar(c, Held(), resume, page, ranged, after, clean, AlwaysUp(src))
      modifies this, store, store.store, src`asked
      ensures Valid() && Apart(src) && refusals >= old(refusals)
      ensures Fits(c, src, index, pub, src.Granted(pageLimit), resolve) && Some(tip) == Last(src.TipWalk(pub), None)
      ensures ReadUpTo(c, Held(), resume, page + 1, now, next, turn, clean && refusals == old(refusals), AlwaysUp(src))
    {
      hide Walk, AlwaysUp, ReadSoFar, ReadAll, Took, Resumed, Page, Upto, Sound, Asked;
      ghost var k, r := Held(), resume;
      var got := ReadPage(index, src, pub, after);
      if got.Failure? {
        ReadingFails(c, k, Held(), r, resume, page, ranged, after, clean, refusals == old(refusals), AlwaysUp(src));
        return ranged, after, Failed;
      }
      ReadingGoesOn(c, k, Held(), r, resume, page, ranged, got.value, after, clean, refusals == old(refusals), AlwaysUp(src));
      now := ranged + got.value;
      if got.value == [] {
        return now, after, Ended;
      }
      next := Some(got.value[|got.value| - 1]);
      if next.value == tip {
        ReadingEnds(c, Held(), resume, page + 1, now, next, clean && refusals == old(refusals), AlwaysUp(src));
        return now, next, Ended;
      }
      turn := Going;
    }

    /** Reads pages until the tip, an empty one, or the page bound. */
    method ReadPages(index: nat, src: Server, pub: Key, first: Option<Digest>, tip: Digest, ghost c: Reading)
      returns (turn: Turn, ranged: seq<Digest>, ghost page: nat, ghost after: Option<Digest>)
      requires Valid() && Apart(src) && Some(tip) == Last(src.TipWalk(pub), None)
      requires Fits(c, src, index, pub, src.Granted(pageLimit), resolve) && c.pages == PageBound()
      requires c.held == Held() && c.was == resume && c.first == first
      modifies this, store, store.store, src`asked
      ensures Valid() && Apart(src) && refusals >= old(refusals)
      ensures page <= c.pages && (turn == Going ==> page == c.pages)
      ensures ReadUpTo(c, Held(), resume, page, ranged, after, turn, refusals == old(refusals), AlwaysUp(src))
    {
      ReadingStarts(c, AlwaysUp(src));
      hide Walk, AlwaysUp, ReadUpTo, ReadSoFar, Sound, Fits;
      var i, next := 0, first;
      turn, ranged := Going, [];
      while i < PageBound()
        invariant turn == Going && i <= PageBound() && Valid() && Apart(src) && refusals >= old(refusals)
        invariant Fits(c, src, index, pub, src.Granted(pageLimit), resolve) && Some(tip) == Last(src.TipWalk(pub), None)
        invariant ReadUpTo(c, Held(), resume, i, ranged, next, turn, refusals == old(refusals), AlwaysUp(src))
      {
        ghost var clean := refusals == old(refusals);
        StillReading(c, Held(), resume, i, ranged, next, clean, AlwaysUp(src));
        ranged, next, turn := ReadNext(index, src, pub, tip, i, ranged, next, c, clean);
        i := i + 1;
        if turn != Going {
          break;
        }
      }
      page, after := i, next;
    }

    /** Reads ranges from a position. */
    method ReadRanges(index: nat, src: Server, pub: Key, first: Option<Digest>, tip: Digest) returns (ok: bool, ranged: seq<Digest>)
      requires Valid() && Apart(src) && Some(tip) == Last(src.TipWalk(pub), None)
      modifies this, store, store.store, src`asked
      ensures Valid() && Apart(src) && refusals >= old(refusals)
      ensures Took(old(Held()), Held(), src.store.blocks, resolve, ranged, refusals == old(refusals), AlwaysUp(src))
      ensures ranged <= Served(src, pub, first) && (ok ==> ranged == Served(src, pub, first))
      ensures resume == Resumed(old(resume), Slot(index, pub), ranged)
      ensures AlwaysUp(src) ==> ok
    {
      ghost var c := Reading(Held(), src.store.blocks, src.order, pub, first, resolve, resume, Slot(index, pub),
                             src.Granted(pageLimit), PageBound());
      ghost var page, after;
      hide Walk, AlwaysUp, ReadUpTo, ReadSoFar, Took, Resumed, Upto, Sound, Asked;
      var turn;
      turn, ranged, page, after := ReadPages(index, src, pub, first, tip, c);
      ReadingIsOver(c, Held(), resume, page, ranged, after, turn, refusals == old(refusals), AlwaysUp(src));
      ok := turn != Failed;
    }

    /** Asks one source for one author's chain: its tip, then ranges, then the pursuit of
        a tip the ranges did not reach. */
    method SyncFrom(index: nat, src: Server, pub: Key) returns (r: SourceSync, ghost mid: Blocks)
      requires Valid() && Apart(src)
      modifies this, store, store.store, src`asked
      ensures Valid() && Apart(src) && refusals >= old(refusals)
      ensures Synced(old(Held()), mid, Held(), src.store.blocks, resolve, Served(src, pub, old(AskedFrom(index, pub))),
                     src.TipWalk(pub), PursuitBound(), r, refusals == old(refusals), AlwaysUp(src))
      ensures Promise(old(Held()), Held(), src.store.blocks, resolve, pub, old(AskedFrom(index, pub)),
                      Served(src, pub, old(AskedFrom(index, pub))), src.TipWalk(pub), PursuitBound(), r,
                      refusals == old(refusals), AlwaysUp(src))
      ensures resume == Resumed(old(resume), Slot(index, pub), r.ranged)
      ensures AlwaysUp(src) && src.TipWalk(pub) != [] ==> r.ok
      // The ranges are what the source has after the last block it handed over; a first
      // sync starts from the client's own end, or from genesis.
      ensures var slot, start := Slot(index, pub), if fromHeldPosition then Last(old(Walk(Held(), order, pub, None)), None) else None;
        ReadsOn(src.store.blocks, src.order, pub, if slot in old(resume) then Some(old(resume)[slot]) else start, Reach(src), r)
      ensures Remembered(old(resume), resume, Slot(index, pub), r.ranged)
    {
      ghost var s, h, pos, w := src.store.blocks, Held(), AskedFrom(index, pub), src.TipWalk(pub);
      ServedIsRun(s, src.order, pub, pos, Reach(src));
      OnWalkIsTame(h, s, src.order, pub, pos, Reach(src));
      hide Walk, AlwaysUp, Synced, Upto, Resumed, Sound, IsRun, Promise, AllTame, ReadsOn, Remembered;
      r, mid := Consult(index, src, pub);
      SyncKeepsItsPromise(h, mid, Held(), s, resolve, pub, pos, Served(src, pub, pos), w, PursuitBound(), r, refusals == old(refusals), AlwaysUp(src));
      SyncedReadsOn(h, mid, Held(), s, resolve, src.order, pub, pos, Reach(src), w, PursuitBound(), r, refusals == old(refusals), AlwaysUp(src));
      ResumedRemembers(old(resume), Slot(index, pub), r.ranged);
    }

    /** The tip first, so as to know whether there is anything to fetch. */
    method Consult(index: nat, src: Server, pub: Key) returns (r: SourceSync, ghost mid: Blocks)
      requires Valid() && Apart(src)
      modifies this, store, store.store, src`asked
      ensures Valid() && Apart(src) && refusals >= old(refusals)
      ensures Synced(old(Held()), mid, Held(), src.store.blocks, resolve, Served(src, pub, old(AskedFrom(index, pub))),
                     src.TipWalk(pub), PursuitBound(), r, refusals == old(refusals), AlwaysUp(src))
      ensures resume == Resumed(old(resume), Slot(index, pub), r.ranged)
      ensures AlwaysUp(src) && src.TipWalk(pub) != [] ==> r.ok
    {
      r, mid := SourceSync(false, NoPursuit, [], []), Held();
      NothingSynced(Held(), src.store.blocks, resolve, Served(src, pub, AskedFrom(index, pub)), src.TipWalk(pub), PursuitBound(), AlwaysUp(src));
      ResumedTwice(resume, Slot(index, pub), [], []);
      assert AlwaysUp(src) ==> src.up(src.asked);
      hide Walk, AlwaysUp, Synced, Upto, Resumed, Sound;
      var claimed := src.Tip(pub);
      if claimed.Answer? && claimed.value.Some? {
        var after := FirstPosition(index, pub);
        r, mid := ReadAndPursue(index, src, pub, after, claimed.value.value);
      }
    }

    /** Two syncs in a row bring the source's walk in one piece, up to twice the reach of
        one: the second goes on where the first stopped. */
    method SyncTwice(index: nat, src: Server, pub: Key) returns (r1: SourceSync, r2: SourceSync)
      requires Valid() && Apart(src)
      modifies this, store, store.store, src`asked
      ensures Valid() && Apart(src)
      ensures var slot, start := Slot(index, pub), if fromHeldPosition then Last(old(Walk(Held(), order, pub, None)), None) else None;
        r1.ok && r2.ok && (slot in old(resume) || r1.ranged != []) ==>
          r1.ranged + r2.ranged
            == Upto(Walk(src.store.blocks, src.order, pub, if slot in old(resume) then Some(old(resume)[slot]) else start), 2 * Reach(src))
    {
      hide Walk, AlwaysUp, Synced, Upto, Resumed, Sound, Promise, ReadsOn;
      ghost var slot, s := Slot(index, pub), src.store.blocks;
      ghost var start := if fromHeldPosition then Last(Walk(Held(), order, pub, None), None) else None;
      ghost var first := if slot in resume then Some(resume[slot]) else start;
      ghost var known := slot in resume;
      ghost var mid;
      assert Sound(s);
      r1, mid := SyncFrom(index, src, pub);
      r2, mid := SyncFrom(index, src, pub);
      if r1.ok && r2.ok && (known || r1.ranged != []) { ReadsOnTwice(s, src.order, pub, first, Reach(src), r1, r2); }
    }

    /** Ranges from a position, then the pursuit of the tip unless it is held by then. */
    method ReadAndPursue(index: nat, src: Server, pub: Key, after: Option<Digest>, tip: Digest)
      returns (r: SourceSync, ghost mid: Blocks)
      requires Valid() && Apart(src) && Some(tip) == Last(src.TipWalk(pub), None)
      modifies this, store, store.store, src`asked
      ensures Valid() && Apart(src) && refusals >= old(refusals)
      ensures Synced(old(Held()), mid, Held(), src.store.blocks, resolve, Served(src, pub, after),
                     src.TipWalk(pub), PursuitBound(), r, refusals == old(refusals), AlwaysUp(src))
      ensures resume == Resumed(old(resume), Slot(index, pub), r.ranged)
      ensures AlwaysUp(src) ==> r.ok
    {
      ghost var s, h, served, w := src.store.blocks, Held(), Served(src, pub, after), src.TipWalk(pub);
      hide Walk, AlwaysUp, Took, Backed, Synced, Upto, Resumed, Sound;
      var ok, ranged := ReadRanges(index, src, pub, after, tip);
      mid := Held();
      ghost var before := refusals;
      if !ok || tip in store.store.blocks {
        r := SourceSync(ok, NoPursuit, ranged, []);
        RangesOnly(h, mid, s, resolve, served, w, tip, PursuitBound(), r, refusals == old(refusals), AlwaysUp(src));
        return;
      }
      var pursued, end := Pursue(src, pub, tip);
      r := SourceSync(true, end, ranged, pursued);
      RangesAndPursuit(h, mid, Held(), s, resolve, served, w, PursuitBound(), r, before == old(refusals), refusals == before,
                       refusals == old(refusals), AlwaysUp(src));
    }

    /** Each source's blocks, tip walk and reach. */
    ghost function Chains(sources: seq<Server>, pub: Key): (c: seq<Chain>)
      requires forall i :: 0 <= i < |sources| ==> sources[i].Valid()
      reads set i | 0 <= i < |sources| :: sources[i].store
      ensures |c| == |sources|
      ensures forall i :: 0 <= i < |c| ==> c[i] == Chain(sources[i].store.blocks, sources[i].TipWalk(pub), Reach(sources[i]))
    {
      seq(|sources|, i requires 0 <= i < |sources| && sources[i].Valid()
                       reads if 0 <= i < |sources| then {sources[i].store} else {} =>
                       Chain(sources[i].store.blocks, sources[i].TipWalk(pub), Reach(sources[i])))
    }

    /** Asks every source in turn. */
    method SyncSources(sources: seq<Server>, pub: Key) returns (reports: seq<SourceSync>)
      requires Valid() && forall i :: 0 <= i < |sources| ==> Apart(sources[i])
      modifies this, store, store.store, set i | 0 <= i < |sources| :: sources[i]
      ensures Valid() && |reports| == |sources| && refusals >= old(refusals)
      ensures forall i :: 0 <= i < |sources| ==> Apart(sources[i]) && sources[i].Valid()
      ensures Extends(old(Held()), Held()) && Chains(sources, pub) == old(Chains(sources, pub))
      ensures refusals == old(refusals) ==>
                Obtained(Held(), Chains(sources, pub), pub, old(resume), fromHeldPosition,
                         old(Steady(Held(), Chains(sources, pub), pub) && ResumeHeld(resume, Held())), reports)
    {
      reports := [];
      ghost var h, chains, was := Held(), Chains(sources, pub), resume;
      ghost var steady := Steady(h, chains, pub) && ResumeHeld(was, h);
      ChainsAreRuns(sources, pub, chains);
      NoneObtained(h, chains, pub, was, fromHeldPosition, steady);
      hide Walk, Obtained, SoFar, Sound, AreChains, Steady, ResumeHeld, Extends;
      for n := 0 to |sources|
        invariant Valid() && |reports| == n && refusals >= old(refusals)
        invariant forall i :: 0 <= i < |sources| ==> Apart(sources[i]) && sources[i].Valid()
        invariant Chains(sources, pub) == chains
        invariant SoFar(h, Held(), chains, pub, was, resume, fromHeldPosition, steady, reports, refusals == old(refusals))
      {
        var report := SyncNext(sources, n, pub, h, chains, was, steady, reports, refusals == old(refusals));
        reports := reports + [report];
      }
      SoFarMeans(h, Held(), chains, pub, was, resume, fromHeldPosition, steady, reports, refusals == old(refusals));
    }

    /** Asks the next source. */
    method SyncNext(sources: seq<Server>, n: nat, pub: Key, ghost h: Blocks, ghost chains: seq<Chain>, ghost was: map<Slot, Digest>,
                    ghost steady: bool, ghost reports: seq<SourceSync>, ghost clean: bool)
      returns (report: SourceSync)
      requires Valid() && (forall i :: 0 <= i < |sources| ==> Apart(sources[i]) && sources[i].Valid())
      requires n < |sources| && |reports| == n && chains == Chains(sources, pub) && AreChains(chains, pub)
      requires SoFar(h, Held(), chains, pub, was, resume, fromHeldPosition, steady, reports, clean)
      modifies this, store, store.store, sources[n]
      ensures Valid() && refusals >= old(refusals)
      ensures forall i :: 0 <= i < |sources| ==> Apart(sources[i]) && sources[i].Valid()
      ensures Chains(sources, pub) == chains
      ensures SoFar(h, Held(), chains, pub, was, resume, fromHeldPosition, steady, reports + [report], clean && refusals == old(refusals))
    {
      hide Walk, Synced, Promise, SoFar, Resumed, Upto, Sound, AreChains, ResumeHeld, AlwaysUp;
      ghost var k, r, pos, c := Held(), resume, AskedFrom(n, pub), chains[n];
      AskedFromHeld(n, pub);
      ghost var mid;
      report, mid := SyncFrom(n, sources[n], pub);
      assert c == Chain(sources[n].store.blocks, sources[n].TipWalk(pub), Reach(sources[n]));
      OneMoreSource(h, k, mid, Held(), resolve, sources[n].order, chains, pub, was, r, resume, fromHeldPosition, steady, reports, report,
                    pos, PursuitBound(), clean, refusals == old(refusals), AlwaysUp(sources[n]));
    }

    lemma AskedFromHeld(index: nat, pub: Key)
      requires Valid()
      ensures ResumeHeld(resume, Held()) ==> PositionHeld(Held(), AskedFrom(index, pub))
      ensures Slot(index, pub) !in resume && !fromHeldPosition ==> AskedFrom(index, pub) == None
    {
      WalkIsRun(store.store.blocks, order, pub, None);
    }

    /** Asks every source what it holds at genesis and at each position the store has two
        blocks at, and gives the store what it lacks. */
    method QuerySiblings(sources: seq<Server>, pub: Key) returns (asked: set<Option<Digest>>)
      requires Valid() && forall i :: 0 <= i < |sources| ==> Apart(sources[i]) && sources[i].Valid()
      modifies this`refusals, store, store.store, set i | 0 <= i < |sources| :: sources[i]`asked
      ensures Valid() && refusals >= old(refusals) && forall i :: 0 <= i < |sources| ==> Apart(sources[i]) && sources[i].Valid()
      ensures Extends(old(Held()), Held()) && Chains(sources, pub) == old(Chains(sources, pub))
      ensures None in asked && forall p: Position :: p.pub == pub && ForkedAt(old(Held()), p) ==> p.prev in asked
      ensures refusals == old(refusals) ==> forall p :: p in asked ==> SiblingsHeld(Held(), Chains(sources, pub), sources, pub, p)
    {
      hide SiblingsHeld, Extends, ForkedAt, Sound, Walk;
      ExtendsSelf(Held());
      var forks := AuthorForks(pub);
      asked := {None} + (set p | p in forks :: p.prev);
      assert forall p: Position :: p.pub == pub && ForkedAt(Held(), p) ==> p in forks && p.prev in asked;
      var left := asked;
      ghost var chains := Chains(sources, pub);
      while left != {}
        invariant left <= asked && Valid() && refusals >= old(refusals)
        invariant forall i :: 0 <= i < |sources| ==> Apart(sources[i]) && sources[i].Valid()
        invariant Extends(old(Held()), Held()) && Chains(sources, pub) == chains
        invariant refusals == old(refusals) ==> forall p :: p in asked - left ==> SiblingsHeld(Held(), chains, sources, pub, p)
        decreases left
      {
        var p :| p in left;
        ghost var k := Held();
        QueryAt(sources, pub, p);
        ExtendsTwice(old(Held()), k, Held());
        SiblingsStay(k, Held(), chains, sources, pub);
        left := left - {p};
      }
    }

    /** Asks every source about one position. */
    method QueryAt(sources: seq<Server>, pub: Key, p: Option<Digest>)
      requires Valid() && forall i :: 0 <= i < |sources| ==> Apart(sources[i]) && sources[i].Valid()
      modifies this`refusals, store, store.store, set i | 0 <= i < |sources| :: sources[i]`asked
      ensures Valid() && refusals >= old(refusals) && forall i :: 0 <= i < |sources| ==> Apart(sources[i]) && sources[i].Valid()
      ensures Extends(old(Held()), Held()) && Chains(sources, pub) == old(Chains(sources, pub))
      ensures refusals == old(refusals) ==> SiblingsHeld(Held(), Chains(sources, pub), sources, pub, p)
    {
      hide SiblingsHeldAt, Extends, Sound, Walk;
      ExtendsSelf(Held());
      ghost var chains := Chains(sources, pub);
      for n := 0 to |sources|
        invariant Valid() && refusals >= old(refusals)
        invariant forall i :: 0 <= i < |sources| ==> Apart(sources[i]) && sources[i].Valid()
        invariant Extends(old(Held()), Held()) && Chains(sources, pub) == chains
        invariant refusals == old(refusals) ==> forall i :: 0 <= i < n ==> SiblingsHeldAt(Held(), chains[i].blocks, sources[i], pub, p)
      {
        ghost var k := Held();
        QueryOne(sources[n], pub, p);
        ExtendsTwice(old(Held()), k, Held());
        forall i | 0 <= i < n ensures SiblingsHeldAt(k, chains[i].blocks, sources[i], pub, p) ==>
            SiblingsHeldAt(Held(), chains[i].blocks, sources[i], pub, p) {
          SiblingsStayAt(k, Held(), chains[i].blocks, sources[i], pub, p);
        }
      }
    }

    /** Asks one source about one position. */
    method QueryOne(src: Server, pub: Key, p: Option<Digest>)
      requires Valid() && Apart(src)
      modifies this`refusals, store, store.store, src`asked
      ensures Valid() && Apart(src) && refusals >= old(refusals) && Extends(old(Held()), Held())
      ensures refusals == old(refusals) ==> SiblingsHeldAt(Held(), src.store.blocks, src, pub, p)
    {
      assert AlwaysUp(src) ==> src.up(src.asked);
      hide AlwaysUp, Holders, Sound, SiblingsHold;
      var reply := src.Siblings(pub, p);
      if reply.Answer? {
        GiveMissing(reply.value);
      }
    }

    /** Gives the store those of the blocks it does not hold. */
    method GiveMissing(bs: seq<Block>)
      requires Valid()
      modifies this`refusals, store, store.store
      ensures Valid() && refusals >= old(refusals) && Extends(old(Held()), Held())
      ensures refusals == old(refusals) ==> forall d :: d in Digests(bs) ==> d in Held()
    {
      for i := 0 to |bs|
        invariant Valid() && refusals >= old(refusals) && Extends(old(Held()), Held())
        invariant refusals == old(refusals) ==> forall j :: 0 <= j < i ==> BlockHash(bs[j]) in Held()
      {
        if BlockHash(bs[i]) !in store.store.blocks {
          Give(bs[i]);
        }
      }
    }

    /** The forks held in an author's chain. */
    method AuthorForks(pub: Key) returns (forks: set<Position>)
      requires Valid()
      ensures ForksOf(Held(), pub, forks)
    {
      var all := store.store.Forks(order);
      forks := set f | f in all && f.position.pub == pub :: f.position;
    }

    /** Obtains one author's chain from every source, then every source's siblings at
        genesis and at each fork. The client ends with the whole of each chain that was
        read from genesis, and of each other chain whose sync did not fail, up to the first
        pursuit that did; wherever two chains it obtained part, the fork is among those it
        reports, and it holds all that an answering source holds there. */
    method SyncChain(sources: seq<Server>, pub: Key)
      returns (reports: seq<SourceSync>, forks: set<Position>, ghost asked: set<Option<Digest>>)
      requires Valid() && forall i :: 0 <= i < |sources| ==> Apart(sources[i])
      modifies this, store, store.store, set i | 0 <= i < |sources| :: sources[i]
      ensures Valid() && |reports| == |sources| && refusals >= old(refusals)
      ensures forall i :: 0 <= i < |sources| ==> Apart(sources[i]) && sources[i].Valid()
      ensures Extends(old(Held()), Held()) && ForksOf(Held(), pub, forks) && Chains(sources, pub) == old(Chains(sources, pub))
      ensures refusals == old(refusals) ==>
                var steady := old(Steady(Held(), Chains(sources, pub), pub) && ResumeHeld(resume, Held()));
                && Obtained(Held(), Chains(sources, pub), pub, old(resume), fromHeldPosition, steady, reports)
                && PartingsReported(Chains(sources, pub), pub, old(resume), fromHeldPosition, steady, reports, forks, asked)
      ensures None in asked
      ensures refusals == old(refusals) ==> forall p :: p in asked ==> SiblingsHeld(Held(), Chains(sources, pub), sources, pub, p)
    {
      hide Walk, Obtained, PartingsReported, ForksOf, ForkedAt, Steady, ResumeHeld, SiblingsHeld, Extends, Sound, AreChains;
      ghost var was, steady := resume, Steady(Held(), Chains(sources, pub), pub) && ResumeHeld(resume, Held());
      reports := SyncSources(sources, pub);
      ghost var k, chains := Held(), Chains(sources, pub);
      var queried := QuerySiblings(sources, pub);
      asked := queried;
      forks := AuthorForks(pub);
      ExtendsTwice(old(Held()), k, Held());
      ChainsAreRuns(sources, pub, chains);
      ObtainedStays(k, Held(), chains, pub, was, fromHeldPosition, steady, reports);
      if refusals == old(refusals) {
        PartingsAreForks(k, Held(), chains, pub, was, fromHeldPosition, steady, reports, forks, asked);
      }
    }

    lemma ChainsAreRuns(sources: seq<Server>, pub: Key, chains: seq<Chain>)
      requires forall i :: 0 <= i < |sources| ==> sources[i].Valid()
      requires chains == Chains(sources, pub)
      ensures AreChains(chains, pub)
    {
      forall i | 0 <= i < |chains| ensures Sound(chains[i].blocks) && IsRun(chains[i].blocks, pub, None, chains[i].walk) {
        WalkIsRun(sources[i].store.blocks, sources[i].order, pub, None);
      }
    }

    /** One sync asks for so many pages of so many blocks, and pursues so far; zero stands
        for a default each time. */
    lemma BoundsMeaning(src: Server)
      ensures maxPages > 0 && 0 < pageLimit <= src.maxLimit ==> Reach(src) == maxPages * pageLimit
      ensures maxPages > 0 && src.maxLimit <= pageLimit && pageLimit > 0 ==> Reach(src) == maxPages * src.maxLimit
      ensures maxPages > 0 && pageLimit == 0 ==> Reach(src) == maxPages * src.defaultLimit
      ensures maxPages == 0 && 0 < pageLimit <= src.maxLimit ==> Reach(src) == 1024 * pageLimit
      ensures if maxPursuit == 0 then PursuitBound() == 256 else PursuitBound() == maxPursuit
    {
    }

    function PageBound(): nat { if maxPages == 0 then MAX_PAGES else maxPages }

    function PursuitBound(): nat { if maxPursuit == 0 then MAX_PURSUIT else maxPursuit }
  }
}
