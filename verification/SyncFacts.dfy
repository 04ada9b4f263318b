/** What the steps of a sync do to the held blocks, as values: giving, walking back,
    reading ranges, and one source after another. */
module SyncFacts {
  import opened Blocks
  import opened Options
  import opened Stores
  import opened StoreModel
  import StoreFacts
  import opened Walks
  import opened Servers
  import opened Completeness

  // ---- what an offer does to the held blocks ------------------------------------------

  /** An offered block is held afterwards unless it was refused; nothing else changes. */
  lemma AddHolds(n: Node, keys: Keyring, limit: int, b: Block)
    requires Sound(n.blocks)
    ensures var (m, a) := Add(n, keys, limit, b);
      && Sound(m.blocks)
      && (m.blocks == n.blocks || m.blocks == n.blocks[BlockHash(b) := b])
      && (!a.Refused? && (BlockHash(b) in n.blocks || !Holds(n, BlockHash(b), Valid)) ==> BlockHash(b) in m.blocks)
  {
    AdmitSound(n, keys, limit, b);
    var n1 := Admit(n, keys, limit, b).0;
    assert n1.blocks == n.blocks || n1.blocks == n.blocks[BlockHash(b) := b] by { hide Validation.Judge; }
    hide Admit, Settle, Sound;
    StoreFacts.SettleKeepsBlocks(n1, keys, limit, [BlockHash(b)]);
  }

  /** Which source, in the order they are consulted, and whose chain. */
  datatype Slot = Slot(index: nat, pub: Key)

  function Reversed(bs: seq<Block>): (r: seq<Block>)
    ensures |r| == |bs|
  {
    seq(|bs|, i requires 0 <= i < |bs| => bs[|bs| - 1 - i])
  }

  /** Every request to this source gets through. */
  ghost predicate AlwaysUp(src: Server) { forall t :: src.up(t) }

  // ---- giving -------------------------------------------------------------------------

  /** The store was given the listed blocks: it holds what it did and some of them, all of
      them if it refused none. */
  ghost predicate Given(h: Blocks, k: Blocks, ds: seq<Digest>, clean: bool) {
    && Sound(k) && Extends(h, k)
    && (forall d :: d in k ==> d in h || d in ds)
    && (clean ==> forall d :: d in ds ==> d in k)
  }

  lemma GivenNothing(h: Blocks)
    requires Sound(h)
    ensures Given(h, h, Digests([]), true)
  {
  }

  lemma GivenOne(h: Blocks, k: Blocks, k': Blocks, bs: seq<Block>, i: nat, clean: bool, clean': bool)
    requires i < |bs| && Given(h, k, Digests(bs[..i]), clean)
    requires k' == k || k' == k[BlockHash(bs[i]) := bs[i]]
    requires clean' ==> clean && BlockHash(bs[i]) in k'
    ensures Given(h, k', Digests(bs[..i + 1]), clean')
  {
    assert bs[..i + 1] == bs[..i] + [bs[i]];
    DigestsNext(bs[..i], bs[i]);
  }

  lemma NamedByOne(s: Blocks, b: Block)
    requires BlockHash(b) in s && s[BlockHash(b)] == b
    ensures forall r :: r in Named(s, [BlockHash(b)]) <==> r in s && r in VisibleRefs(b)
  {
    forall r | r in s && r in VisibleRefs(b) ensures r in Named(s, [BlockHash(b)]) {
      assert BlockHash(b) in [BlockHash(b)] && Names(s, BlockHash(b), r);
    }
  }

  lemma FetchedGiven(h: Blocks, k: Blocks, s: Blocks, refs: seq<Digest>, missing: seq<Digest>, bs: seq<Block>, clean: bool)
    requires Given(h, k, Digests(bs), clean) && Sound(s)
    requires (forall r :: r in missing ==> r in refs) && forall r :: r in refs ==> r in missing || r in h
    requires forall b :: b in bs ==> BlockHash(b) in s && BlockHash(b) in missing
    requires forall d :: d in missing && d in s ==> s[d] in bs
    ensures Sound(k) && Extends(h, k) && forall d :: d in k ==> d in h || (d in s && d in refs)
    ensures clean ==> forall r :: r in refs && r in s ==> r in k
  {
    forall d | d in Digests(bs) ensures d in s && d in refs {
      var i :| 0 <= i < |bs| && Digests(bs)[i] == d;
      assert bs[i] in bs;
    }
    if clean {
      forall r | r in refs && r in s && r !in h ensures r in k {
        assert s[r] in bs;
        var i :| 0 <= i < |bs| && bs[i] == s[r];
        assert Digests(bs)[i] == r;
      }
    }
  }

  lemma OfferTook(h: Blocks, m: Blocks, k: Blocks, s: Blocks, resolve: bool, b: Block, clean: bool, answered: bool)
    requires Sound(m) && Extends(h, m)
    requires if resolve then m.Keys <= h.Keys + Named(s, [BlockHash(b)]) && (clean && answered ==> Named(s, [BlockHash(b)]) <= m.Keys) else m == h
    requires k == m || k == m[BlockHash(b) := b]
    requires clean ==> BlockHash(b) in k
    ensures Took(h, k, s, resolve, [BlockHash(b)], clean, answered)
  {
    hide Named;
  }

  lemma TookNone(h: Blocks, s: Blocks, resolve: bool, answered: bool)
    requires Sound(h)
    ensures Took(h, h, s, resolve, Digests([]), true, answered) && Took(h, h, s, resolve, [], true, answered)
  {
    TookNothing(h, s, resolve, true, answered);
    assert Digests([]) == [];
  }

  lemma TookOne(h: Blocks, m: Blocks, k: Blocks, s: Blocks, resolve: bool, bs: seq<Block>, i: nat,
                first: bool, second: bool, clean: bool, answered: bool)
    requires i < |bs| && Took(h, m, s, resolve, Digests(bs[..i]), first, answered) && Took(m, k, s, resolve, [BlockHash(bs[i])], second, answered)
    requires clean ==> first && second
    ensures Took(h, k, s, resolve, Digests(bs[..i + 1]), clean, answered)
  {
    TookMore(h, m, k, s, resolve, Digests(bs[..i]), [BlockHash(bs[i])], first, second, clean, answered);
    assert bs[..i + 1] == bs[..i] + [bs[i]];
    DigestsNext(bs[..i], bs[i]);
  }

  // ---- the backward walk --------------------------------------------------------------

  /** The blocks fetched one behind the other from a tip are, turned round, a run of the
      author's chain that ends in the tip; it begins after the position reached. */
  ghost predicate Trail(s: Blocks, pub: Key, walked: seq<Block>, tip: Digest, reached: Option<Digest>) {
    var p := Digests(Reversed(walked));
    IsRun(s, pub, reached, p) && Last(p, reached) == Some(tip)
  }

  lemma NoTrail(s: Blocks, pub: Key, tip: Digest)
    ensures Trail(s, pub, [], tip, Some(tip))
  {
  }

  lemma TrailNext(s: Blocks, pub: Key, walked: seq<Block>, tip: Digest, target: Digest, b: Block)
    requires Trail(s, pub, walked, tip, Some(target)) && BlockHash(b) == target && target in s && s[target] == b && b.pub == pub
    ensures Trail(s, pub, walked + [b], tip, b.prev)
  {
    var p := Digests(Reversed(walked));
    assert Digests(Reversed(walked + [b])) == [target] + p;
    RunCons(s, pub, b.prev, target, p);
  }

  lemma TrailHeld(s: Blocks, pub: Key, walked: seq<Block>, tip: Digest, reached: Option<Digest>)
    requires Trail(s, pub, walked, tip, reached)
    ensures forall b :: b in walked ==> BlockHash(b) in s
  {
    var p := Digests(Reversed(walked));
    forall b | b in walked ensures BlockHash(b) in s {
      var i :| 0 <= i < |walked| && walked[i] == b;
      assert p[|walked| - 1 - i] == BlockHash(b);
    }
  }

  /** A run that ends where a chain from genesis ends is the end of that chain. */
  lemma SameEnd(s: Blocks, pub: Key, reached: Option<Digest>, p: seq<Digest>, w: seq<Digest>)
    requires Sound(s) && IsRun(s, pub, reached, p) && IsRun(s, pub, None, w) && w != []
    requires Last(p, reached) == Some(w[|w| - 1])
    ensures |p| <= |w| && p == w[|w| - |p|..] && reached == Last(w[..|w| - |p|], None)
  {
    var n := |w| - |p|;
    if p != [] {
      RunMeets(s, s, pub, reached, p, w, |p| - 1, |w| - 1, 0);
      forall i | 0 <= i < |p| ensures p[i] == w[n..][i] {
        RunMeets(s, s, pub, reached, p, w, |p| - 1, |w| - 1, i);
      }
      RunPrev(s, pub, reached, p, 0);
      RunPrev(s, pub, None, w, n);
    }
  }

  /** A pursuit of the source's own tip is asked only for blocks of the tip walk. */
  lemma TrailTarget(src: Server, pub: Key, tip: Digest, walked: seq<Block>, target: Digest)
    requires src.Valid() && Trail(src.store.blocks, pub, walked, tip, Some(target))
    ensures Some(tip) == Last(src.TipWalk(pub), None) ==> target in src.store.blocks && src.store.blocks[target].pub == pub
  {
    var w, p := src.TipWalk(pub), Digests(Reversed(walked));
    WalkIsRun(src.store.blocks, src.order, pub, None);
    hide Walk;
    if Some(tip) == Last(w, None) {
      SameEnd(src.store.blocks, pub, Some(target), p, w);
      RunPrev(src.store.blocks, pub, None, w, |w| - |p| - 1);
    }
  }

  lemma TrailIsBacked(src: Server, pub: Key, tip: Digest, walked: seq<Block>, reached: Option<Digest>, h: Blocks, end: PursuitEnd, bound: nat)
    requires src.Valid() && Trail(src.store.blocks, pub, walked, tip, reached) && |walked| <= bound && end != NoPursuit
    requires tip !in h && Some(tip) == Last(src.TipWalk(pub), None) && forall b :: b in walked ==> BlockHash(b) !in h
    requires end == ReachedHeld ==> reached.Some? && reached.value in h
    requires end == ReachedGenesis ==> reached.None?
    requires end == PursuitFailed ==> reached.Some? && reached.value !in h && (AlwaysUp(src) ==> |walked| == bound)
    ensures Backed(h, src.TipWalk(pub), SourceSync(true, end, [], Digests(Reversed(walked))), bound, AlwaysUp(src))
  {
    var w, p := src.TipWalk(pub), Digests(Reversed(walked));
    WalkIsRun(src.store.blocks, src.order, pub, None);
    hide Walk, AlwaysUp, Backed;
    forall i | 0 <= i < |p| ensures p[i] !in h {
      assert Reversed(walked)[i] in walked;
    }
    hide Reversed, Digests;
    SuffixBacks(src.store.blocks, pub, reached, p, w, h, end, bound, AlwaysUp(src));
  }

  lemma SuffixBacks(s: Blocks, pub: Key, reached: Option<Digest>, p: seq<Digest>, w: seq<Digest>, h: Blocks, end: PursuitEnd,
                    bound: nat, answered: bool)
    requires Sound(s) && IsRun(s, pub, reached, p) && IsRun(s, pub, None, w) && w != [] && Last(p, reached) == Some(w[|w| - 1])
    requires w[|w| - 1] !in h && |p| <= bound && end != NoPursuit && forall i :: 0 <= i < |p| ==> p[i] !in h
    requires end == ReachedHeld ==> reached.Some? && reached.value in h
    requires end == ReachedGenesis ==> reached.None?
    requires end == PursuitFailed ==> reached.Some? && reached.value !in h && (answered ==> |p| == bound)
    ensures Backed(h, w, SourceSync(true, end, [], p), bound, answered)
  {
    SameEnd(s, pub, reached, p, w);
    hide IsRun, Sound;
    EndBacks(reached, p, w, h, end, bound, answered);
  }

  lemma EndBacks(reached: Option<Digest>, p: seq<Digest>, w: seq<Digest>, h: Blocks, end: PursuitEnd, bound: nat, answered: bool)
    requires |p| <= |w| && p == w[|w| - |p|..] && reached == Last(w[..|w| - |p|], None) && w != []
    requires w[|w| - 1] !in h && |p| <= bound && end != NoPursuit && forall i :: 0 <= i < |p| ==> p[i] !in h
    requires end == ReachedHeld ==> reached.Some? && reached.value in h
    requires end == ReachedGenesis ==> reached.None?
    requires end == PursuitFailed ==> reached.Some? && reached.value !in h && (answered ==> |p| == bound)
    ensures Backed(h, w, SourceSync(true, end, [], p), bound, answered)
  {
    var n := |w| - |p|;
    assert reached == if n == 0 then None else Some(w[n - 1]);
    forall i | n <= i < |w| ensures w[i] !in h {
      assert p[i - n] == w[i];
    }
  }

  /** How many blocks some pages may hold. */
  function Asked(pages: nat, n: nat): nat { pages * n }

  // ---- ranges -------------------------------------------------------------------------

  function Resumed(resume: map<Slot, Digest>, slot: Slot, ds: seq<Digest>): map<Slot, Digest> {
    if ds == [] then resume else resume[slot := ds[|ds| - 1]]
  }

  lemma ResumedTwice(resume: map<Slot, Digest>, slot: Slot, a: seq<Digest>, b: seq<Digest>)
    ensures Resumed(Resumed(resume, slot, a), slot, b) == Resumed(resume, slot, a + b)
    ensures Resumed(resume, slot, []) == resume
  {
  }

  /** The ranges are the walk after a position, as far as they went; all that one sync
      reaches of it when nothing failed. */
  ghost predicate ReadsOn(s: Blocks, order: ByteOrder, pub: Key, start: Option<Digest>, reach: nat, r: SourceSync)
    requires Sound(s)
  {
    var w := Walk(s, order, pub, start);
    r.ranged <= w && |r.ranged| <= reach && (r.ok ==> r.ranged == Upto(w, reach))
  }

  /** The last block read is remembered for the source and author, and nothing else is
      changed. */
  ghost predicate Remembered(before: map<Slot, Digest>, after: map<Slot, Digest>, slot: Slot, ds: seq<Digest>) {
    && (ds != [] ==> slot in after && after[slot] == ds[|ds| - 1])
    && (ds == [] ==> (slot in after <==> slot in before) && (slot in before ==> after[slot] == before[slot]))
    && forall k :: k != slot ==> (k in after <==> k in before) && (k in before ==> after[k] == before[k])
  }

  lemma ResumedRemembers(resume: map<Slot, Digest>, slot: Slot, ds: seq<Digest>)
    ensures Remembered(resume, Resumed(resume, slot, ds), slot, ds)
  {
  }

  lemma SyncedReadsOn(h: Blocks, m: Blocks, k: Blocks, s: Blocks, resolve: bool, order: ByteOrder, pub: Key, start: Option<Digest>,
                      reach: nat, w: seq<Digest>, bound: nat, r: SourceSync, clean: bool, answered: bool)
    requires Sound(s) && Synced(h, m, k, s, resolve, Upto(Walk(s, order, pub, start), reach), w, bound, r, clean, answered)
    ensures ReadsOn(s, order, pub, start, reach, r)
  {
    hide Walk, Took, Backed, Sound;
  }

  /** One sync after another: the second reads on from the last block of the first. */
  lemma ReadsOnTwice(s: Blocks, order: ByteOrder, pub: Key, start: Option<Digest>, reach: nat, r1: SourceSync, r2: SourceSync)
    requires Sound(s) && ReadsOn(s, order, pub, start, reach, r1) && ReadsOn(s, order, pub, Last(r1.ranged, start), reach, r2)
    requires r1.ok && r2.ok
    ensures r1.ranged + r2.ranged == Upto(Walk(s, order, pub, start), 2 * reach)
  {
    var w := Walk(s, order, pub, start);
    assert w[..|r1.ranged|] == r1.ranged;
    WalkContinues(s, order, pub, start, |r1.ranged|);
    hide Walk, Sound;
    UptoTwice(w, reach, reach);
  }

  /** Every recorded position is held. */
  ghost predicate ResumeHeld(resume: map<Slot, Digest>, h: Blocks) { forall k :: k in resume ==> resume[k] in h }

  lemma SentIsHeld(s: Blocks, bs: seq<Block>, w: seq<Digest>)
    requires Sends(s, bs, w)
    ensures Digests(bs) == w && forall b :: b in bs ==> BlockHash(b) in s
  {
    forall b | b in bs ensures BlockHash(b) in s {
      var i :| 0 <= i < |bs| && bs[i] == b;
      assert Digests(bs)[i] == w[i];
    }
  }

  /** What has been read is the walk's first n blocks, and the next page follows it. */
  ghost predicate InRange(s: Blocks, order: ByteOrder, pub: Key, first: Option<Digest>, n: nat, ranged: seq<Digest>, after: Option<Digest>)
    requires Sound(s)
  {
    ranged == Upto(Walk(s, order, pub, first), n) && after == Last(ranged, first)
  }

  /** One page more. An empty one means the walk has been read. */
  lemma RangeGrows(s: Blocks, order: ByteOrder, pub: Key, first: Option<Digest>, page: nat, n: nat, pages: nat,
                   ranged: seq<Digest>, after: Option<Digest>)
    requires Sound(s) && n > 0 && page < pages && InRange(s, order, pub, first, Asked(page, n), ranged, after)
    ensures var v, p := Walk(s, order, pub, first), Page(s, order, pub, after, n);
      && InRange(s, order, pub, first, Asked(page + 1, n), ranged + p, Last(p, after))
      && ranged <= Upto(v, Asked(pages, n))
      && (p == [] ==> ranged == Upto(v, Asked(pages, n)))
  {
    hide Walk, Asked;
    var v := Walk(s, order, pub, first);
    UptoIsFront(v, Asked(page, n), ranged);
    WalkContinues(s, order, pub, first, |ranged|);
    AskedNext(page, n);
    AskedLeq(page + 1, pages, n);
    UptoGrows(v, Asked(page, n), n, Asked(pages, n), ranged);
  }

  lemma UptoIsFront(v: seq<Digest>, a: nat, ranged: seq<Digest>)
    requires ranged == Upto(v, a)
    ensures |ranged| <= |v| && v[..|ranged|] == ranged
  {
  }

  lemma UptoGrows(v: seq<Digest>, a: nat, n: nat, most: nat, ranged: seq<Digest>)
    requires ranged == Upto(v, a) && |ranged| <= |v| && n > 0 && a + n <= most
    ensures var p := Upto(v[|ranged|..], n);
      ranged + p == Upto(v, a + n) && ranged <= Upto(v, most) && (p == [] ==> ranged == Upto(v, most))
  {
    UptoTwice(v, a, n);
  }

  lemma AskedNext(page: nat, n: nat)
    ensures Asked(page + 1, n) == Asked(page, n) + n
  {
    assert page * n + n == (page + 1) * n;
  }

  lemma AskedLeq(a: nat, b: nat, n: nat)
    requires a <= b
    ensures Asked(a, n) <= Asked(b, n)
  {
  }

  /** The range that holds the tip holds the rest of the walk. */
  lemma TipEndsRange(s: Blocks, order: ByteOrder, pub: Key, first: Option<Digest>, n: nat, reach: nat, ranged: seq<Digest>, tip: Digest)
    requires Sound(s) && n <= reach && ranged != [] && InRange(s, order, pub, first, n, ranged, Some(tip))
    requires Some(tip) == Last(Walk(s, order, pub, None), None)
    ensures ranged == Upto(Walk(s, order, pub, first), reach)
  {
    var v, w := Walk(s, order, pub, first), Walk(s, order, pub, None);
    WalkContinues(s, order, pub, first, |ranged|);
    WalkFrom(s, order, pub, |w| - 1);
    hide Walk;
    assert v[..|ranged|] == ranged;
    assert Walk(s, order, pub, Some(tip)) == [];
  }

  /** What one sync's reading of ranges begins with and does not change. */
  datatype Reading = Reading(held: Blocks, source: Blocks, order: ByteOrder, pub: Key, first: Option<Digest>, resolve: bool,
                             was: map<Slot, Digest>, slot: Slot, n: nat, pages: nat)
  {
    ghost function Rest(): seq<Digest>
      requires Sound(source)
    {
      Walk(source, order, pub, first)
    }
  }

  ghost predicate Fits(c: Reading, src: Server, index: nat, pub: Key, granted: nat, resolve: bool)
    requires src.Valid()
    reads src.store
  {
    c.source == src.store.blocks && c.order == src.order && c.pub == pub && c.slot == Slot(index, pub) && c.n == granted && c.resolve == resolve
  }

  /** Whether reading goes on. */
  datatype Turn = Going | Ended | Failed

  /** Where a sync stands after some pages: what was read and taken, and what is recorded. */
  ghost predicate ReadSoFar(c: Reading, k: Blocks, resume: map<Slot, Digest>, page: nat, ranged: seq<Digest>,
                            after: Option<Digest>, clean: bool, answered: bool)
    requires Sound(c.source)
  {
    && Took(c.held, k, c.source, c.resolve, ranged, clean, answered) && resume == Resumed(c.was, c.slot, ranged)
    && InRange(c.source, c.order, c.pub, c.first, Asked(page, c.n), ranged, after)
  }

  /** Where it ends: an error may cut it short. */
  ghost predicate ReadAll(c: Reading, k: Blocks, resume: map<Slot, Digest>, ranged: seq<Digest>, ok: bool, clean: bool, answered: bool)
    requires Sound(c.source)
  {
    var served := Upto(c.Rest(), Asked(c.pages, c.n));
    && Took(c.held, k, c.source, c.resolve, ranged, clean, answered) && resume == Resumed(c.was, c.slot, ranged)
    && ranged <= served && (ok ==> ranged == served)
  }

  /** Where it stands, going on or not; a failure means that some request did not get
      through. */
  ghost predicate ReadUpTo(c: Reading, k: Blocks, resume: map<Slot, Digest>, page: nat, ranged: seq<Digest>,
                           after: Option<Digest>, turn: Turn, clean: bool, answered: bool)
    requires Sound(c.source)
  {
    if turn == Going then ReadSoFar(c, k, resume, page, ranged, after, clean, answered)
    else ReadAll(c, k, resume, ranged, turn == Ended, clean, answered) && (turn == Failed ==> !answered)
  }

  lemma StillReading(c: Reading, k: Blocks, resume: map<Slot, Digest>, page: nat, ranged: seq<Digest>,
                     after: Option<Digest>, clean: bool, answered: bool)
    requires Sound(c.source) && ReadUpTo(c, k, resume, page, ranged, after, Going, clean, answered)
    ensures ReadSoFar(c, k, resume, page, ranged, after, clean, answered)
  {
  }

  lemma ReadingIsOver(c: Reading, k: Blocks, resume: map<Slot, Digest>, page: nat, ranged: seq<Digest>,
                      after: Option<Digest>, turn: Turn, clean: bool, answered: bool)
    requires Sound(c.source) && page <= c.pages && (turn == Going ==> page == c.pages)
    requires ReadUpTo(c, k, resume, page, ranged, after, turn, clean, answered)
    ensures var served := Upto(Walk(c.source, c.order, c.pub, c.first), Asked(c.pages, c.n));
      && Took(c.held, k, c.source, c.resolve, ranged, clean, answered) && resume == Resumed(c.was, c.slot, ranged)
      && ranged <= served && (turn != Failed ==> ranged == served)
    ensures turn == Failed ==> !answered
  {
    if turn == Going { ReadingEnds(c, k, resume, page, ranged, after, clean, answered); }
  }

  lemma ReadingStarts(c: Reading, answered: bool)
    requires Sound(c.source) && Sound(c.held)
    ensures ReadUpTo(c, c.held, c.was, 0, [], c.first, Going, true, answered)
  {
    TookNothing(c.held, c.source, c.resolve, true, answered);
    hide Walk, Took;
  }

  lemma ReadingGoesOn(c: Reading, k: Blocks, k': Blocks, r: map<Slot, Digest>, r': map<Slot, Digest>, page: nat,
                      ranged: seq<Digest>, ds: seq<Digest>, after: Option<Digest>, before: bool, now: bool, answered: bool)
    requires Sound(c.source) && c.n > 0 && page < c.pages && ReadSoFar(c, k, r, page, ranged, after, before, answered)
    requires ds == Page(c.source, c.order, c.pub, after, c.n) && Took(k, k', c.source, c.resolve, ds, now, answered) && r' == Resumed(r, c.slot, ds)
    ensures ReadSoFar(c, k', r', page + 1, ranged + ds, Last(ds, after), before && now, answered)
    ensures ds == [] ==> ReadAll(c, k', r', ranged + ds, true, before && now, answered)
  {
    RangeGrows(c.source, c.order, c.pub, c.first, page, c.n, c.pages, ranged, after);
    TookMore(c.held, k, k', c.source, c.resolve, ranged, ds, before, now, before && now, answered);
    ResumedTwice(c.was, c.slot, ranged, ds);
    hide Walk, Took, Page, Upto, Resumed, Asked;
    assert ds == [] ==> ranged + ds == ranged;
  }

  lemma ReadingFails(c: Reading, k: Blocks, k': Blocks, r: map<Slot, Digest>, r': map<Slot, Digest>, page: nat,
                     ranged: seq<Digest>, after: Option<Digest>, before: bool, now: bool, answered: bool)
    requires Sound(c.source) && c.n > 0 && page < c.pages && ReadSoFar(c, k, r, page, ranged, after, before, answered)
    requires Took(k, k', c.source, c.resolve, [], now, answered) && r' == Resumed(r, c.slot, [])
    ensures ReadAll(c, k', r', ranged, false, before && now, answered)
  {
    RangeGrows(c.source, c.order, c.pub, c.first, page, c.n, c.pages, ranged, after);
    TookMore(c.held, k, k', c.source, c.resolve, ranged, [], before, now, before && now, answered);
    ResumedTwice(r, c.slot, [], []);
    hide Walk, Took, Page, Upto, Resumed, Asked;
    assert ranged + [] == ranged;
  }

  /** Reading is over when the pages asked for are used up, or the tip has come. */
  lemma ReadingEnds(c: Reading, k: Blocks, r: map<Slot, Digest>, page: nat, ranged: seq<Digest>, after: Option<Digest>,
                    clean: bool, answered: bool)
    requires Sound(c.source) && page <= c.pages && ReadSoFar(c, k, r, page, ranged, after, clean, answered)
    requires page == c.pages || (ranged != [] && after == Last(Walk(c.source, c.order, c.pub, None), None))
    ensures ReadAll(c, k, r, ranged, true, clean, answered)
  {
    hide Took, Walk;
    AskedLeq(page, c.pages, c.n);
    hide Asked;
    if page != c.pages { TipEndsRange(c.source, c.order, c.pub, c.first, Asked(page, c.n), Asked(c.pages, c.n), ranged, after.value); }
  }

  // ---- one source -----------------------------------------------------------------------

  lemma NothingSynced(h: Blocks, s: Blocks, resolve: bool, served: seq<Digest>, w: seq<Digest>, bound: nat, answered: bool)
    requires Sound(h)
    ensures Synced(h, h, h, s, resolve, served, w, bound, SourceSync(false, NoPursuit, [], []), true, answered)
  {
    TookNothing(h, s, resolve, true, answered);
    hide Took;
  }

  lemma RangesOnly(h: Blocks, m: Blocks, s: Blocks, resolve: bool, served: seq<Digest>, w: seq<Digest>, tip: Digest, bound: nat,
                   r: SourceSync, clean: bool, answered: bool)
    requires Sound(m) && Took(h, m, s, resolve, r.ranged, clean, answered) && r.ranged <= served && (r.ok ==> r.ranged == served)
    requires r.end == NoPursuit && r.pursued == [] && Some(tip) == Last(w, None) && (r.ok ==> tip in m)
    ensures Synced(h, m, m, s, resolve, served, w, bound, r, clean, answered)
  {
    TookNothing(m, s, resolve, clean, answered);
    hide Took;
  }

  lemma RangesAndPursuit(h: Blocks, m: Blocks, k: Blocks, s: Blocks, resolve: bool, served: seq<Digest>, w: seq<Digest>, bound: nat,
                         r: SourceSync, before: bool, now: bool, clean: bool, answered: bool)
    requires Took(h, m, s, resolve, r.ranged, before, answered) && Took(m, k, s, resolve, r.pursued, now, answered) && (clean ==> before && now)
    requires r.ok && r.ranged == served && r.end != NoPursuit && Backed(m, w, SourceSync(true, r.end, [], r.pursued), bound, answered)
    ensures Synced(h, m, k, s, resolve, served, w, bound, r, clean, answered)
  {
  }

  lemma ServedIsRun(s: Blocks, order: ByteOrder, pub: Key, pos: Option<Digest>, n: nat)
    requires Sound(s)
    ensures IsRun(s, pub, pos, Upto(Walk(s, order, pub, pos), n)) && IsRun(s, pub, None, Walk(s, order, pub, None))
  {
    WalkIsRun(s, order, pub, pos);
    WalkIsRun(s, order, pub, None);
    hide Walk, IsRun, Sound;
    PrefixIsRun(s, pub, pos, Walk(s, order, pub, pos), Upto(Walk(s, order, pub, pos), n));
  }

  // ---- several sources ------------------------------------------------------------------

  /** The source was not asked before, is asked from genesis, and the ranges reach its tip. */
  ghost predicate Fresh(c: Chain, resume: map<Slot, Digest>, slot: Slot, fromHeld: bool) {
    !fromHeld && slot !in resume && |c.walk| <= c.reach
  }

  ghost predicate NoFailure(reports: seq<SourceSync>, n: nat)
    requires n <= |reports|
  {
    forall i :: 0 <= i < n ==> reports[i].end != PursuitFailed
  }

  /** This source's chain was obtained: read whole from genesis, or, of a steady client,
      before any pursuit failed. */
  ghost predicate Sure(chains: seq<Chain>, pub: Key, resume: map<Slot, Digest>, fromHeld: bool, steady: bool, reports: seq<SourceSync>, i: nat)
    requires |reports| <= |chains|
  {
    i < |reports| && reports[i].ok && (Fresh(chains[i], resume, Slot(i, pub), fromHeld) || (steady && NoFailure(reports, i + 1)))
  }

  ghost predicate Obtained(h: Blocks, chains: seq<Chain>, pub: Key, resume: map<Slot, Digest>, fromHeld: bool, steady: bool, reports: seq<SourceSync>)
    requires |reports| <= |chains|
  {
    forall i: nat :: Sure(chains, pub, resume, fromHeld, steady, reports, i) ==> HoldsAll(h, chains[i].walk)
  }

  /** Where things stand after some sources. */
  ghost predicate SoFar(h: Blocks, k: Blocks, chains: seq<Chain>, pub: Key, was: map<Slot, Digest>, resume: map<Slot, Digest>, fromHeld: bool,
                        steady: bool, reports: seq<SourceSync>, clean: bool)
    requires |reports| <= |chains|
  {
    && Sound(k) && Extends(h, k)
    && (forall i: nat :: i >= |reports| ==> (Slot(i, pub) in resume <==> Slot(i, pub) in was))
    && (clean ==> Obtained(k, chains, pub, was, fromHeld, steady, reports))
    && (clean && steady && NoFailure(reports, |reports|) ==> Steady(k, chains, pub) && ResumeHeld(resume, k))
  }

  lemma NoneObtained(h: Blocks, chains: seq<Chain>, pub: Key, was: map<Slot, Digest>, fromHeld: bool, steady: bool)
    requires Sound(h) && (steady ==> Steady(h, chains, pub) && ResumeHeld(was, h))
    ensures SoFar(h, h, chains, pub, was, was, fromHeld, steady, [], true)
  {
    hide Sound, Steady, ResumeHeld;
  }

  lemma SoFarMeans(h: Blocks, k: Blocks, chains: seq<Chain>, pub: Key, was: map<Slot, Digest>, resume: map<Slot, Digest>, fromHeld: bool,
                   steady: bool, reports: seq<SourceSync>, clean: bool)
    requires |reports| <= |chains| && SoFar(h, k, chains, pub, was, resume, fromHeld, steady, reports, clean)
    ensures Extends(h, k) && (clean ==> Obtained(k, chains, pub, was, fromHeld, steady, reports))
  {
  }

  /** The next source's sync, from a position asked after. */
  ghost predicate Next(k: Blocks, mid: Blocks, k': Blocks, resolve: bool, order: ByteOrder, c: Chain, pub: Key, pos: Option<Digest>,
                       bound: nat, report: SourceSync, clean: bool, answered: bool)
    requires Sound(c.blocks)
  {
    && Synced(k, mid, k', c.blocks, resolve, Upto(Walk(c.blocks, order, pub, pos), c.reach), c.walk, bound, report, clean, answered)
    && c.walk == Walk(c.blocks, order, pub, None)
  }

  lemma NextSteady(k: Blocks, mid: Blocks, k': Blocks, resolve: bool, order: ByteOrder, chains: seq<Chain>, n: nat, pub: Key,
                   r: map<Slot, Digest>, pos: Option<Digest>, bound: nat, report: SourceSync, answered: bool)
    requires n < |chains| && AreChains(chains, pub) && Sound(k) && Next(k, mid, k', resolve, order, chains[n], pub, pos, bound, report, true, answered)
    requires report.end != PursuitFailed && Steady(k, chains, pub) && ResumeHeld(r, k) && PositionHeld(k, pos)
    ensures Steady(k', chains, pub) && ResumeHeld(Resumed(r, Slot(n, pub), report.ranged), k') && (report.ok ==> HoldsAll(k', chains[n].walk))
  {
    var c := chains[n];
    var served := Upto(Walk(c.blocks, order, pub, pos), c.reach);
    SyncedExtends(k, mid, k', c.blocks, resolve, served, c.walk, bound, report, true, answered);
    ServedIsRun(c.blocks, order, pub, pos, c.reach);
    hide Walk, Sound, IsRun, Synced, Steady, HoldsAll, AreChains, Extends, ResumeHeld, PositionHeld, Upto;
    SteadyStays(k, mid, k', resolve, chains, n, pub, pos, served, bound, report, answered);
    ResumeStaysHeld(k, k', r, Slot(n, pub), report.ranged);
  }

  lemma NextFresh(k: Blocks, mid: Blocks, k': Blocks, resolve: bool, order: ByteOrder, c: Chain, pub: Key, pos: Option<Digest>,
                  bound: nat, report: SourceSync, answered: bool)
    requires Sound(c.blocks) && Next(k, mid, k', resolve, order, c, pub, pos, bound, report, true, answered)
    requires report.ok && pos == None && |c.walk| <= c.reach
    ensures HoldsAll(k', c.walk)
  {
    hide Walk, Sound, Synced, HoldsAll;
    UptoAll(c.walk, c.reach);
    GenesisCompletes(k, mid, k', c.blocks, resolve, c.walk, c.walk, bound, report, answered);
  }

  lemma NextGrows(h: Blocks, k: Blocks, mid: Blocks, k': Blocks, resolve: bool, order: ByteOrder, c: Chain, pub: Key, pos: Option<Digest>,
                  bound: nat, report: SourceSync, clean: bool, answered: bool)
    requires Sound(c.blocks) && Next(k, mid, k', resolve, order, c, pub, pos, bound, report, clean, answered) && Extends(h, k)
    ensures Sound(k') && Extends(h, k') && Extends(k, k')
  {
    SyncedExtends(k, mid, k', c.blocks, resolve, Upto(Walk(c.blocks, order, pub, pos), c.reach), c.walk, bound, report, clean, answered);
    ExtendsTwice(h, k, k');
  }

  /** One more source synced. */
  lemma OneMoreSource(h: Blocks, k: Blocks, mid: Blocks, k': Blocks, resolve: bool, order: ByteOrder, chains: seq<Chain>, pub: Key,
                      was: map<Slot, Digest>, r: map<Slot, Digest>, r': map<Slot, Digest>, fromHeld: bool, steady: bool,
                      reports: seq<SourceSync>, report: SourceSync, pos: Option<Digest>, bound: nat,
                      before: bool, now: bool, answered: bool)
    requires |reports| < |chains| && AreChains(chains, pub) && SoFar(h, k, chains, pub, was, r, fromHeld, steady, reports, before)
    requires Sound(chains[|reports|].blocks) && Next(k, mid, k', resolve, order, chains[|reports|], pub, pos, bound, report, now, answered)
    requires ResumeHeld(r, k) ==> PositionHeld(k, pos)
    requires Slot(|reports|, pub) !in r && !fromHeld ==> pos == None
    requires r' == Resumed(r, Slot(|reports|, pub), report.ranged)
    ensures SoFar(h, k', chains, pub, was, r', fromHeld, steady, reports + [report], before && now)
  {
    var n, c, all, clean := |reports|, chains[|reports|], reports + [report], before && now;
    hide Sound, AreChains, Next, Steady, HoldsAll, Extends, Sure, NoFailure, ResumeHeld, PositionHeld;
    SureBefore(chains, pub, was, fromHeld, steady, reports, report);
    NextGrows(h, k, mid, k', resolve, order, c, pub, pos, bound, report, now, answered);
    if clean && steady && NoFailure(all, n + 1) {
      NextSteady(k, mid, k', resolve, order, chains, n, pub, r, pos, bound, report, answered);
    }
    if clean {
      ObtainedStays(k, k', chains, pub, was, fromHeld, steady, reports);
      if Fresh(c, was, Slot(n, pub), fromHeld) && report.ok {
        NextFresh(k, mid, k', resolve, order, c, pub, pos, bound, report, answered);
      }
      forall i: nat | Sure(chains, pub, was, fromHeld, steady, all, i) ensures HoldsAll(k', chains[i].walk) {
      }
    }
  }

  lemma UptoAll(w: seq<Digest>, n: nat)
    requires |w| <= n
    ensures Upto(w, n) == w
  {
  }

  lemma ResumeStaysHeld(h: Blocks, k: Blocks, r: map<Slot, Digest>, slot: Slot, ds: seq<Digest>)
    requires ResumeHeld(r, h) && Extends(h, k) && (ds != [] ==> ds[|ds| - 1] in k)
    ensures ResumeHeld(Resumed(r, slot, ds), k)
  {
  }

  /** A source is obtained by its own report and what came before. */
  lemma SureBefore(chains: seq<Chain>, pub: Key, was: map<Slot, Digest>, fromHeld: bool, steady: bool, reports: seq<SourceSync>, report: SourceSync)
    requires |reports| < |chains|
    ensures var n, all := |reports|, reports + [report];
      && (forall i: nat :: Sure(chains, pub, was, fromHeld, steady, all, i) && i != n ==> Sure(chains, pub, was, fromHeld, steady, reports, i))
      && (Sure(chains, pub, was, fromHeld, steady, all, n) ==> report.ok && (Fresh(chains[n], was, Slot(n, pub), fromHeld) || (steady && NoFailure(all, n + 1))))
      && (NoFailure(all, n + 1) ==> NoFailure(reports, n) && report.end != PursuitFailed)
  {
    var n, all := |reports|, reports + [report];
    assert report == all[n] && forall i :: 0 <= i < n ==> reports[i] == all[i];
    forall i: nat | Sure(chains, pub, was, fromHeld, steady, all, i) && i != n ensures Sure(chains, pub, was, fromHeld, steady, reports, i) {
      assert NoFailure(all, i + 1) ==> NoFailure(reports, i + 1);
    }
  }

  lemma StillHoldsAll(h: Blocks, k: Blocks, w: seq<Digest>)
    requires Extends(h, k)
    ensures HoldsAll(h, w) ==> HoldsAll(k, w)
  {
  }

  lemma ObtainedStays(h: Blocks, k: Blocks, chains: seq<Chain>, pub: Key, resume: map<Slot, Digest>, fromHeld: bool, steady: bool, reports: seq<SourceSync>)
    requires |reports| <= |chains| && Extends(h, k)
    ensures Obtained(h, chains, pub, resume, fromHeld, steady, reports) ==> Obtained(k, chains, pub, resume, fromHeld, steady, reports)
  {
    hide HoldsAll, Extends, Fresh, NoFailure;
    if Obtained(h, chains, pub, resume, fromHeld, steady, reports) {
      forall i: nat | Sure(chains, pub, resume, fromHeld, steady, reports, i) ensures HoldsAll(k, chains[i].walk) {
        StillHoldsAll(h, k, chains[i].walk);
      }
    }
  }

  // ---- siblings ---------------------------------------------------------------------------

  lemma ExtendsSelf(h: Blocks)
    ensures Extends(h, h)
  {
  }

  lemma ExtendsTwice(a: Blocks, b: Blocks, c: Blocks)
    requires Extends(a, b) && Extends(b, c)
    ensures Extends(a, c)
  {
  }

  /** What a source holds at a position is held, if the source answers. */
  ghost predicate SiblingsHeldAt(h: Blocks, s: Blocks, src: Server, pub: Key, p: Option<Digest>) {
    AlwaysUp(src) ==> Holders(s, pub, p) <= h.Keys
  }

  ghost predicate SiblingsHeld(h: Blocks, chains: seq<Chain>, sources: seq<Server>, pub: Key, p: Option<Digest>)
    requires |chains| == |sources|
  {
    forall i :: 0 <= i < |chains| ==> SiblingsHeldAt(h, chains[i].blocks, sources[i], pub, p)
  }

  lemma SiblingsStayAt(h: Blocks, k: Blocks, s: Blocks, src: Server, pub: Key, p: Option<Digest>)
    requires Extends(h, k)
    ensures SiblingsHeldAt(h, s, src, pub, p) ==> SiblingsHeldAt(k, s, src, pub, p)
  {
    hide AlwaysUp, Holders;
    assert h.Keys <= k.Keys;
  }

  lemma SiblingsStay(h: Blocks, k: Blocks, chains: seq<Chain>, sources: seq<Server>, pub: Key)
    requires Extends(h, k) && |chains| == |sources|
    ensures forall p :: SiblingsHeld(h, chains, sources, pub, p) ==> SiblingsHeld(k, chains, sources, pub, p)
  {
    hide SiblingsHeldAt, Extends;
    forall p | SiblingsHeld(h, chains, sources, pub, p) ensures SiblingsHeld(k, chains, sources, pub, p) {
      forall i | 0 <= i < |chains| ensures SiblingsHeldAt(k, chains[i].blocks, sources[i], pub, p) {
        SiblingsStayAt(h, k, chains[i].blocks, sources[i], pub, p);
      }
    }
  }

  // ---- forks ------------------------------------------------------------------------------

  /** The positions in an author's chain that two held blocks claim. */
  ghost predicate ForksOf(h: Blocks, pub: Key, forks: set<Position>) {
    forall p :: p in forks <==> p.pub == pub && ForkedAt(h, p)
  }

  /** Two walks run together for n blocks and then part. */
  predicate Part(v: seq<Digest>, w: seq<Digest>, n: nat) { n < |v| && n < |w| && v[..n] == w[..n] && v[n] != w[n] }

  /** Where two obtained chains part is a fork reported, and a position every source was
      asked about. */
  ghost predicate PartingsReported(chains: seq<Chain>, pub: Key, resume: map<Slot, Digest>, fromHeld: bool, steady: bool,
                                   reports: seq<SourceSync>, forks: set<Position>, asked: set<Option<Digest>>)
    requires |reports| <= |chains|
  {
    forall i: nat, j: nat, n: nat ::
      Sure(chains, pub, resume, fromHeld, steady, reports, i) && Sure(chains, pub, resume, fromHeld, steady, reports, j)
      && Part(chains[i].walk, chains[j].walk, n) ==>
        Position(pub, Last(chains[i].walk[..n], None)) in forks && Last(chains[i].walk[..n], None) in asked
  }

  lemma PartingIsFork(h: Blocks, chains: seq<Chain>, pub: Key, i: nat, j: nat, n: nat)
    requires Sound(h) && AreChains(chains, pub) && i < |chains| && j < |chains|
    requires HoldsAll(h, chains[i].walk) && HoldsAll(h, chains[j].walk) && Part(chains[i].walk, chains[j].walk, n)
    ensures ForkedAt(h, Position(pub, Last(chains[i].walk[..n], None)))
  {
    var v, w := chains[i].walk, chains[j].walk;
    DivergenceIsAFork(h, chains[i].blocks, chains[j].blocks, pub, v, w, n);
    assert v[n] in Holders(h, pub, Last(v[..n], None));
    assert PositionOf(h[v[n]]) == Position(pub, Last(v[..n], None));
  }

  lemma ForkedStays(h: Blocks, k: Blocks, p: Position)
    requires Extends(h, k) && ForkedAt(h, p)
    ensures ForkedAt(k, p)
  {
    var a, b :| a in h && b in h && IsFork(h[a], h[b]) && PositionOf(h[a]) == p;
    assert a in k && b in k && IsFork(k[a], k[b]);
  }

  lemma PartingsAreForks(h: Blocks, k: Blocks, chains: seq<Chain>, pub: Key, resume: map<Slot, Digest>, fromHeld: bool, steady: bool,
                         reports: seq<SourceSync>, forks: set<Position>, asked: set<Option<Digest>>)
    requires Sound(h) && Extends(h, k) && AreChains(chains, pub) && |reports| <= |chains|
    requires Obtained(h, chains, pub, resume, fromHeld, steady, reports) && ForksOf(k, pub, forks)
    requires forall p: Position :: p.pub == pub && ForkedAt(h, p) ==> p.prev in asked
    ensures PartingsReported(chains, pub, resume, fromHeld, steady, reports, forks, asked)
  {
    hide Sound, HoldsAll, AreChains, Last, ForkedAt, Extends;
    forall i: nat, j: nat, n: nat |
      Sure(chains, pub, resume, fromHeld, steady, reports, i) && Sure(chains, pub, resume, fromHeld, steady, reports, j)
      && Part(chains[i].walk, chains[j].walk, n)
      ensures Position(pub, Last(chains[i].walk[..n], None)) in forks && Last(chains[i].walk[..n], None) in asked
    {
      var p := Position(pub, Last(chains[i].walk[..n], None));
      PartingIsFork(h, chains, pub, i, j, n);
      ForkedStays(h, k, p);
    }
  }
}
