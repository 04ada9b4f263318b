/** What offering a source's blocks to a client's store brings, and when the client ends
    with the whole of the source's chain. Everything here is about held blocks as values;
    `Sync` proves that its methods reach exactly these states. */
module Completeness {
  import opened Blocks
  import opened Options
  import opened Walks

  /** d's refs name the block r, and the source holds both. */
  predicate Names(s: Blocks, d: Digest, r: Digest) { d in s && r in s && r in VisibleRefs(s[d]) }

  /** The source's blocks that the refs of the listed ones name. */
  function Named(s: Blocks, ds: seq<Digest>): set<Digest> { set r | r in s && exists d :: d in ds && Names(s, d, r) }

  /** All that offering the listed blocks can bring: the blocks, and when references are
      resolved also what their refs name. */
  function Brought(s: Blocks, resolve: bool, ds: seq<Digest>): set<Digest> {
    (set d | d in ds) + if resolve then Named(s, ds) else {}
  }

  lemma BroughtMore(s: Blocks, resolve: bool, a: seq<Digest>, b: seq<Digest>)
    ensures Brought(s, resolve, a + b) == Brought(s, resolve, a) + Brought(s, resolve, b)
  {
  }

  /** h grew into k by offering the listed blocks of s. If none was refused they are all
      held; if every request got through as well, so is all that they bring. */
  ghost predicate Took(h: Blocks, k: Blocks, s: Blocks, resolve: bool, ds: seq<Digest>, clean: bool, answered: bool) {
    && Sound(k) && Extends(h, k)
    && k.Keys <= h.Keys + Brought(s, resolve, ds)
    && (clean ==> forall d :: d in ds ==> d in k)
    && (clean && answered ==> Brought(s, resolve, ds) <= k.Keys)
  }

  lemma TookNothing(h: Blocks, s: Blocks, resolve: bool, clean: bool, answered: bool)
    requires Sound(h)
    ensures Took(h, h, s, resolve, [], clean, answered)
  {
  }

  lemma TookMore(h: Blocks, m: Blocks, k: Blocks, s: Blocks, resolve: bool, a: seq<Digest>, b: seq<Digest>,
                 first: bool, second: bool, clean: bool, answered: bool)
    requires Took(h, m, s, resolve, a, first, answered) && Took(m, k, s, resolve, b, second, answered)
    requires clean ==> first && second
    ensures Took(h, k, s, resolve, a + b, clean, answered)
  {
    BroughtMore(s, resolve, a, b);
    hide Brought;
  }

  /** With everything answered and nothing refused, what is held is determined. */
  lemma TookAll(h: Blocks, k: Blocks, s: Blocks, resolve: bool, ds: seq<Digest>)
    requires Took(h, k, s, resolve, ds, true, true)
    ensures k.Keys == h.Keys + Brought(s, resolve, ds)
  {
    assert h.Keys <= k.Keys;
  }

  // ---- a walk without a hole at the client ----------------------------------------------

  /** With each block of the walk that is held, the one before it is held. */
  ghost predicate HoleFree(h: Blocks, w: seq<Digest>) { forall j :: 0 < j < |w| && w[j] in h ==> w[j - 1] in h }

  lemma {:induction false} HeldBelow(h: Blocks, w: seq<Digest>, j: nat, i: nat)
    requires HoleFree(h, w) && i <= j < |w| && w[j] in h
    ensures w[i] in h
    decreases j
  {
    if i < j { HeldBelow(h, w, j - 1, i); }
  }

  /** Holding the end of a walk without a hole is holding the walk. */
  lemma EndIsEverything(h: Blocks, w: seq<Digest>)
    requires HoleFree(h, w) && (w != [] ==> w[|w| - 1] in h)
    ensures HoldsAll(h, w)
  {
    forall i | 0 <= i < |w| ensures w[i] in h { HeldBelow(h, w, |w| - 1, i); }
  }

  /** A client that holds each of the author's blocks with its predecessor has no hole in
      any of the author's chains. */
  lemma ClosedIsHoleFree(h: Blocks, s: Blocks, pub: Key, w: seq<Digest>)
    requires Sound(h) && Sound(s) && PrevClosed(h, pub) && IsRun(s, pub, None, w)
    ensures HoleFree(h, w)
  {
    forall j | 0 < j < |w| && w[j] in h ensures w[j - 1] in h {
      OneBlock(h, s, w[j]);
      RunPrev(s, pub, None, w, j);
    }
  }

  // ---- digests nest ---------------------------------------------------------------------

  /** a is b or is reached from b along prev. */
  ghost predicate Under(a: Digest, b: Digest)
    decreases b
  {
    a == b || (b.BlockHash? && b.block.prev.Some? && Under(a, b.block.prev.value))
  }

  lemma {:induction false} RunNests(s: Blocks, pub: Key, pos: Option<Digest>, w: seq<Digest>, i: nat, j: nat)
    requires Sound(s) && IsRun(s, pub, pos, w) && i <= j < |w|
    ensures Under(w[i], w[j])
    decreases j
  {
    RunPrev(s, pub, pos, w, j);
    assert w[j] == BlockHash(s[w[j]]);
    hide IsRun;
    if i < j {
      RunNests(s, pub, pos, w, i, j - 1);
      assert w[j].block.prev == Some(w[j - 1]);
    }
  }

  /** What is reached from a block is a smaller value than the block. */
  lemma {:induction false} UnderIsSmaller(a: Digest, b: Digest)
    requires Under(a, b)
    ensures a == b || a < b
    decreases b
  {
    if a != b { UnderIsSmaller(a, b.block.prev.value); }
  }

  lemma NamedIsSmaller(s: Blocks, d: Digest, r: Digest)
    requires Sound(s) && Names(s, d, r)
    ensures r < d
  {
    assert d == BlockHash(s[d]);
    var refs := VisibleRefs(s[d]);
    var k :| 0 <= k < |refs| && refs[k] == r;
    assert refs[k] < d;
  }

  /** A block of a chain names no later block of it: a digest holds what it hashes. */
  lemma NamesBelow(s: Blocks, t: Blocks, pub: Key, w: seq<Digest>, i: nat, j: nat)
    requires Sound(s) && Sound(t) && IsRun(t, pub, None, w) && i < |w| && j < |w| && Names(s, w[i], w[j])
    ensures j < i
  {
    NamedIsSmaller(s, w[i], w[j]);
    if i <= j {
      RunNests(t, pub, None, w, i, j);
      UnderIsSmaller(w[i], w[j]);
    }
  }

  // ---- what keeps a walk free of holes ---------------------------------------------------

  /** The block's refs name no block of the walk above one the client lacks. */
  ghost predicate Tame(h: Blocks, s: Blocks, w: seq<Digest>, d: Digest) {
    forall j :: 0 < j < |w| && Names(s, d, w[j]) ==> w[j - 1] in h
  }

  /** Each listed block is on the walk, or names nothing of it above a missing block. */
  ghost predicate AllTame(h: Blocks, s: Blocks, w: seq<Digest>, ds: seq<Digest>) {
    forall d :: d in ds ==> d in w || Tame(h, s, w, d)
  }

  ghost predicate PositionHeld(h: Blocks, pos: Option<Digest>) { pos.Some? ==> pos.value in h }

  /** A run that meets a chain from genesis in one of its blocks is that chain from there
      down to where the run begins. */
  lemma {:induction false} RunMeets(s: Blocks, t: Blocks, pub: Key, pos: Option<Digest>, ds: seq<Digest>, w: seq<Digest>, i: nat, l: nat, x: nat)
    requires Sound(s) && Sound(t) && IsRun(s, pub, pos, ds) && IsRun(t, pub, None, w)
    requires x <= i < |ds| && l < |w| && ds[i] == w[l]
    ensures i - x <= l && ds[x] == w[l - (i - x)]
    decreases i - x
  {
    if x < i {
      RunMeets(s, t, pub, pos, ds, w, i, l, x + 1);
      var m := l - (i - (x + 1));
      RunPrev(s, pub, pos, ds, x + 1);
      RunPrev(t, pub, None, w, m);
      OneBlock(s, t, w[m]);
    }
  }

  /** Under a block of the walk that is offered after a held position, everything is held
      once the run is. */
  lemma HeldUnder(h: Blocks, k: Blocks, s: Blocks, t: Blocks, pub: Key, pos: Option<Digest>, ds: seq<Digest>, w: seq<Digest>, i: nat, l: nat, j: nat)
    requires Sound(s) && Sound(t) && IsRun(s, pub, pos, ds) && IsRun(t, pub, None, w)
    requires HoleFree(h, w) && PositionHeld(h, pos) && Extends(h, k) && forall d :: d in ds ==> d in k
    requires i < |ds| && l < |w| && ds[i] == w[l] && j < l
    ensures w[j] in k
  {
    if l - i <= j {
      RunMeets(s, t, pub, pos, ds, w, i, l, i - (l - j));
      assert ds[i - (l - j)] == w[j];
    } else {
      RunMeets(s, t, pub, pos, ds, w, i, l, 0);
      RunPrev(s, pub, pos, ds, 0);
      RunPrev(t, pub, None, w, l - i);
      OneBlock(s, t, w[l - i]);
      assert pos == Some(w[l - i - 1]);
      HeldBelow(h, w, l - i - 1, j);
    }
  }

  /** Offering a run after a held position makes no hole in a walk, unless a block of it
      off the walk names a walk block above a missing one. Rule 10 is not needed. */
  lemma RunKeepsHoleFree(h: Blocks, k: Blocks, s: Blocks, resolve: bool, t: Blocks, pub: Key, pos: Option<Digest>,
                         ds: seq<Digest>, w: seq<Digest>, answered: bool)
    requires Sound(h) && Sound(s) && Sound(t) && IsRun(s, pub, pos, ds) && IsRun(t, pub, None, w)
    requires Took(h, k, s, resolve, ds, true, answered)
    requires HoleFree(h, w) && PositionHeld(h, pos) && AllTame(h, s, w, ds)
    ensures HoleFree(k, w)
  {
    hide IsRun, Sound;
    forall j | 0 < j < |w| && w[j] in k ensures w[j - 1] in k {
      if w[j] in ds {
        var i :| 0 <= i < |ds| && ds[i] == w[j];
        HeldUnder(h, k, s, t, pub, pos, ds, w, i, j, j - 1);
      } else if w[j] !in h {
        var d :| d in ds && Names(s, d, w[j]);
        if d in w {
          var i :| 0 <= i < |ds| && ds[i] == d;
          var l :| 0 <= l < |w| && w[l] == d;
          NamesBelow(s, t, pub, w, l, j);
          HeldUnder(h, k, s, t, pub, pos, ds, w, i, l, j - 1);
        }
      }
    }
  }

  /** Rule 10, of one author's blocks at a source: no ref names a block of theirs. */
  ghost predicate KeepsRuleTen(s: Blocks, pub: Key) {
    forall d, r :: d in s && s[d].pub == pub && Names(s, d, r) ==> s[r].pub != pub
  }

  /** Where rule 10 holds, no block names any block of the author's chains. */
  lemma RuleTenIsTame(h: Blocks, s: Blocks, t: Blocks, pub: Key, w: seq<Digest>, d: Digest)
    requires Sound(s) && Sound(t) && KeepsRuleTen(s, pub) && IsRun(t, pub, None, w) && d in s && s[d].pub == pub
    ensures Tame(h, s, w, d)
  {
    forall j | 0 <= j < |w| ensures w[j] in s ==> s[w[j]].pub == pub {
      if w[j] in s { OneBlock(s, t, w[j]); }
    }
  }

  lemma RuleTenIsAllTame(h: Blocks, s: Blocks, pub: Key, w: seq<Digest>, pos: Option<Digest>, ds: seq<Digest>)
    requires Sound(s) && KeepsRuleTen(s, pub) && IsRun(s, pub, None, w) && IsRun(s, pub, pos, ds)
    ensures AllTame(h, s, w, ds)
  {
    forall d | d in ds ensures d in w || Tame(h, s, w, d) {
      var i :| 0 <= i < |ds| && ds[i] == d;
      RuleTenIsTame(h, s, s, pub, w, d);
    }
  }

  /** and there the author's whole chain stays closed, junk predecessors and all. */
  lemma RunKeepsClosed(h: Blocks, k: Blocks, s: Blocks, resolve: bool, pub: Key, pos: Option<Digest>, ds: seq<Digest>, answered: bool)
    requires Sound(h) && Sound(s) && IsRun(s, pub, pos, ds) && Took(h, k, s, resolve, ds, true, answered)
    requires PrevClosed(h, pub) && PositionHeld(h, pos) && KeepsRuleTen(s, pub)
    ensures Sound(k) && PrevClosed(k, pub)
  {
    forall e | e in ds ensures e in s && s[e].pub == pub && forall r :: Names(s, e, r) ==> s[r].pub != pub {
      var i :| 0 <= i < |ds| && ds[i] == e;
    }
    forall d | d in k && d in s ensures k[d] == s[d] { OneBlock(k, s, d); }
    forall d | d in k && k[d].pub == pub && k[d].prev.Some? ensures k[d].prev.value in k {
      if d in ds {
        var i :| 0 <= i < |ds| && ds[i] == d;
        RunPrev(s, pub, pos, ds, i);
      }
    }
  }

  // ---- the whole of a sync --------------------------------------------------------------

  datatype PursuitEnd = NoPursuit | ReachedHeld | ReachedGenesis | PursuitFailed

  /** What one source contributed: whether it was asked without error, how the pursuit of
      its tip ended, and the digests its ranges and the pursuit handed over, in order. */
  datatype SourceSync = SourceSync(ok: bool, end: PursuitEnd, ranged: seq<Digest>, pursued: seq<Digest>)

  /** Where a walk back along w from its end stops: at the first block that is in a, at
      genesis, or when it has made all the steps it may. The blocks from there on are the
      ones fetched. */
  function Met(a: set<Digest>, w: seq<Digest>, bound: nat): (n: nat)
    ensures n <= |w|
  {
    if w == [] || bound == 0 || w[|w| - 1] in a then |w| else Met(a, w[..|w| - 1], bound - 1)
  }

  /** What a client holds after an undisturbed sync: what its ranges bring, and what the
      pursuit of the walk's end brings after that. */
  function Reached(a: set<Digest>, s: Blocks, resolve: bool, w: seq<Digest>, bound: nat): set<Digest> {
    a + Brought(s, resolve, w[Met(a, w, bound)..])
  }

  /** The exact condition for the client to end with the whole walk: everything below where
      the backward walk stops is already there or is named by a block it fetches. */
  ghost predicate NoGap(a: set<Digest>, s: Blocks, resolve: bool, w: seq<Digest>, bound: nat) {
    forall i :: 0 <= i < Met(a, w, bound) ==> w[i] in a || (resolve && w[i] in Named(s, w[Met(a, w, bound)..]))
  }

  lemma {:induction false} NoRepeatInRun(s: Blocks, pub: Key, pos: Option<Digest>, w: seq<Digest>, i: nat, j: nat)
    requires Sound(s) && IsRun(s, pub, pos, w) && i < j < |w|
    ensures w[i] != w[j]
  {
    RunPrev(s, pub, pos, w, j);
    RunNests(s, pub, pos, w, i, j - 1);
    UnderIsSmaller(w[i], w[j - 1]);
    assert w[j] == BlockHash(s[w[j]]);
    assert w[j - 1] < w[j];
  }

  lemma NoGapIsExact(k: Blocks, a: set<Digest>, s: Blocks, resolve: bool, pub: Key, w: seq<Digest>, bound: nat)
    requires Sound(s) && IsRun(s, pub, None, w) && k.Keys == Reached(a, s, resolve, w, bound)
    ensures HoldsAll(k, w) <==> NoGap(a, s, resolve, w, bound)
  {
    var n := Met(a, w, bound);
    FrontIsNotRest(s, pub, w, n);
    hide IsRun, Sound, Met, Named;
    forall i | 0 <= i < |w| ensures w[i] in k <==> i >= n || w[i] in a || (resolve && w[i] in Named(s, w[n..])) {
      if i >= n { assert w[n..][i - n] == w[i]; } else { assert w[i] !in w[n..]; }
    }
  }

  lemma FrontIsNotRest(s: Blocks, pub: Key, w: seq<Digest>, n: nat)
    requires Sound(s) && IsRun(s, pub, None, w) && n <= |w|
    ensures forall i :: 0 <= i < n ==> w[i] !in w[n..]
  {
    hide IsRun, Sound;
    forall i | 0 <= i < n ensures w[i] !in w[n..] {
      forall j | 0 <= j < |w[n..]| ensures w[n..][j] != w[i] { NoRepeatInRun(s, pub, None, w, i, n + j); }
    }
  }

  // ---- when the condition holds ----------------------------------------------------------

  lemma {:induction false} MetMeaning(a: set<Digest>, w: seq<Digest>, bound: nat, n: nat)
    requires n <= |w| && |w| - n <= bound && forall i :: n <= i < |w| ==> w[i] !in a
    requires n == 0 || w[n - 1] in a || |w| - n == bound
    ensures n == Met(a, w, bound)
    decreases |w|
  {
    if n < |w| {
      var v := w[..|w| - 1];
      forall i | n <= i < |v| ensures v[i] !in a { assert v[i] == w[i]; }
      MetMeaning(a, v, bound - 1, n);
    }
  }

  lemma {:induction false} MetStops(a: set<Digest>, w: seq<Digest>, bound: nat)
    ensures var n := Met(a, w, bound);
      |w| - n <= bound && (forall i :: n <= i < |w| ==> w[i] !in a) && (n == 0 || w[n - 1] in a || |w| - n == bound)
    decreases |w|
  {
    if w != [] && bound > 0 && w[|w| - 1] !in a {
      MetStops(a, w[..|w| - 1], bound - 1);
    }
  }

  /** Ranges that bring the whole walk leave no gap, whatever the client held before. */
  lemma WholeRangeLeavesNoGap(a: set<Digest>, s: Blocks, resolve: bool, w: seq<Digest>, bound: nat, ds: seq<Digest>)
    requires Brought(s, resolve, ds) <= a && w <= ds
    ensures NoGap(a, s, resolve, w, bound)
  {
    forall i | 0 <= i < |w| ensures w[i] in a { assert w[i] == ds[i]; }
  }

  /** The held blocks of a set that a client and a source between them hold. */
  function Holding(h: Blocks, s: Blocks, a: set<Digest>): Blocks { map d | d in a && (d in h || d in s) :: if d in h then h[d] else s[d] }

  /** Nor do ranges that begin at a held position and name nothing above a hole, if the
      client's part of the walk has none and the pursuit does not run out of steps. */
  lemma TameRangeLeavesNoGap(h: Blocks, s: Blocks, resolve: bool, pub: Key, pos: Option<Digest>, ds: seq<Digest>, w: seq<Digest>, bound: nat)
    requires Sound(h) && Sound(s) && IsRun(s, pub, pos, ds) && IsRun(s, pub, None, w)
    requires HoleFree(h, w) && PositionHeld(h, pos) && AllTame(h, s, w, ds)
    requires var a := h.Keys + Brought(s, resolve, ds); var n := Met(a, w, bound); n == 0 || w[n - 1] in a
    ensures NoGap(h.Keys + Brought(s, resolve, ds), s, resolve, w, bound)
  {
    var a := h.Keys + Brought(s, resolve, ds);
    var k := Holding(h, s, a);
    forall d | d in ds ensures d in s { var i :| 0 <= i < |ds| && ds[i] == d; }
    assert k.Keys == a;
    RunKeepsHoleFree(h, k, s, resolve, s, pub, pos, ds, w, true);
    var n := Met(a, w, bound);
    forall i | 0 <= i < n ensures w[i] in a { HeldBelow(k, w, n - 1, i); }
  }

  lemma WalkFrom(s: Blocks, order: ByteOrder, pub: Key, i: nat)
    requires Sound(s) && i < |Walk(s, order, pub, None)|
    ensures var w := Walk(s, order, pub, None); Walk(s, order, pub, Some(w[i])) == w[i + 1..]
  {
    WalkContinues(s, order, pub, None, i + 1);
    hide Walk;
    var w := Walk(s, order, pub, None);
    assert w[..i + 1][i] == w[i];
  }

  /** A range that begins on the walk, or at genesis, is the rest of the walk. */
  lemma OnWalkIsTame(h: Blocks, s: Blocks, order: ByteOrder, pub: Key, pos: Option<Digest>, n: nat)
    requires Sound(s)
    ensures var w := Walk(s, order, pub, None);
      pos.None? || pos.value in w ==> AllTame(h, s, w, Upto(Walk(s, order, pub, pos), n))
  {
    hide Walk, Tame;
    var w := Walk(s, order, pub, None);
    if pos.Some? && pos.value in w {
      var i :| 0 <= i < |w| && w[i] == pos.value;
      WalkFrom(s, order, pub, i);
    }
  }

  // ---- a pursuit that ran out of steps ---------------------------------------------------

  /** A failed pursuit leaves the end of the walk held above a hole, and no later sync
      pursues it again: what is still missing then comes from the ranges or not at all.
      The next sync recovers iff its ranges bring, or name, every missing block below
      where the pursuit gave up. */
  lemma RecoveryIsUpToTheRange(k: Blocks, a: set<Digest>, s: Blocks, resolve: bool, pub: Key, w: seq<Digest>, bound: nat, ds: seq<Digest>)
    requires Sound(s) && IsRun(s, pub, None, w) && w != [] && bound > 0 && k.Keys == Reached(a, s, resolve, w, bound)
    ensures var next := k.Keys + Brought(s, resolve, ds);
      && Reached(next, s, resolve, w, bound) == next
      && (NoGap(next, s, resolve, w, bound) <==> forall i :: 0 <= i < Met(a, w, bound) ==> w[i] in k || w[i] in Brought(s, resolve, ds))
  {
    TopIsReached(k, a, s, resolve, w, bound);
    hide Sound, IsRun, Brought, Reached;
    HeldEndStops(k.Keys + Brought(s, resolve, ds), s, resolve, w, bound);
  }

  /** What a pursuit fetched is held, and so, in any case, is the end of the walk. */
  lemma TopIsReached(k: Blocks, a: set<Digest>, s: Blocks, resolve: bool, w: seq<Digest>, bound: nat)
    requires w != [] && bound > 0 && k.Keys == Reached(a, s, resolve, w, bound)
    ensures w[|w| - 1] in k && forall i :: Met(a, w, bound) <= i < |w| ==> w[i] in k
  {
    var n := Met(a, w, bound);
    MetStops(a, w, bound);
    forall i | n <= i < |w| ensures w[i] in k {
      assert w[n..][i - n] == w[i];
    }
    assert n == |w| ==> w[n - 1] in a;
  }

  /** Where the end is held there is no pursuit. */
  lemma HeldEndStops(a: set<Digest>, s: Blocks, resolve: bool, w: seq<Digest>, bound: nat)
    requires w != [] && w[|w| - 1] in a
    ensures Reached(a, s, resolve, w, bound) == a && Met(a, w, bound) == |w|
    ensures NoGap(a, s, resolve, w, bound) <==> forall i :: 0 <= i < |w| ==> w[i] in a
  {
    assert w[|w|..] == [] && Named(s, []) == {};
  }

  // ---- the methods' states ---------------------------------------------------------------

  /** How a pursuit of the walk's end went, from a store m. */
  ghost predicate Backed(m: Blocks, w: seq<Digest>, r: SourceSync, bound: nat, answered: bool) {
    var n := |w| - |r.pursued|;
    if r.end == NoPursuit then r.pursued == [] && (r.ok ==> w != [] && w[|w| - 1] in m)
    else
      && r.ok && w != [] && w[|w| - 1] !in m
      && 0 <= n && |r.pursued| <= bound && r.pursued == w[n..]
      && (forall i :: n <= i < |w| ==> w[i] !in m)
      && (r.end == ReachedHeld ==> n > 0 && w[n - 1] in m)
      && (r.end == ReachedGenesis ==> n == 0)
      && (r.end == PursuitFailed ==> n > 0 && w[n - 1] !in m && (answered ==> |r.pursued| == bound))
  }

  /** One source's sync: from h over m, after the ranges, to k. `served` is what its ranges
      hold in all. */
  ghost predicate Synced(h: Blocks, m: Blocks, k: Blocks, s: Blocks, resolve: bool, served: seq<Digest>, w: seq<Digest>,
                         bound: nat, r: SourceSync, clean: bool, answered: bool) {
    && Took(h, m, s, resolve, r.ranged, clean, answered) && Took(m, k, s, resolve, r.pursued, clean, answered)
    && r.ranged <= served && (r.ok ==> r.ranged == served)
    && Backed(m, w, r, bound, answered)
  }

  lemma LessIsTame(h: Blocks, m: Blocks, s: Blocks, w: seq<Digest>, ds: seq<Digest>, es: seq<Digest>)
    requires AllTame(h, s, w, ds) && es <= ds && Extends(h, m)
    ensures AllTame(m, s, w, es)
  {
  }

  /** Where the pursued blocks begin is a held position, unless the pursuit failed. */
  lemma PursuitStartsHeld(m: Blocks, w: seq<Digest>, r: SourceSync, bound: nat, answered: bool)
    requires Backed(m, w, r, bound, answered) && r.end != PursuitFailed
    ensures |r.pursued| <= |w| && r.pursued == w[|w| - |r.pursued|..]
    ensures r.pursued != [] ==> PositionHeld(m, Last(w[..|w| - |r.pursued|], None))
  {
  }

  /** What a sync keeps of any walk t's blocks make, its own or another source's. */
  lemma SyncKeepsHoleFree(h: Blocks, m: Blocks, k: Blocks, s: Blocks, resolve: bool, pub: Key, pos: Option<Digest>, served: seq<Digest>,
                          w: seq<Digest>, bound: nat, r: SourceSync, answered: bool, t: Blocks, x: seq<Digest>)
    requires Sound(h) && Sound(s) && Sound(t) && IsRun(s, pub, pos, served) && IsRun(s, pub, None, w) && IsRun(t, pub, None, x)
    requires Synced(h, m, k, s, resolve, served, w, bound, r, true, answered) && r.end != PursuitFailed
    requires HoleFree(h, x) && PositionHeld(h, pos) && AllTame(h, s, x, served) && AllTame(h, s, x, w)
    ensures HoleFree(m, x) && HoleFree(k, x)
  {
    PrefixIsRun(s, pub, pos, served, r.ranged);
    LessIsTame(h, h, s, x, served, r.ranged) by { assert Extends(h, h); }
    RunKeepsHoleFree(h, m, s, resolve, t, pub, pos, r.ranged, x, answered);
    var n := |w| - |r.pursued|;
    PursuitStartsHeld(m, w, r, bound, answered);
    if r.pursued != [] {
      SuffixIsRun(s, pub, None, w, n);
      assert AllTame(m, s, x, r.pursued) by {
        hide IsRun, HoleFree, Sound, Backed, Took;
        forall d | d in r.pursued ensures d in x || Tame(m, s, x, d) { assert d in w; assert Extends(h, m) by { assert Took(h, m, s, resolve, r.ranged, true, answered); } }
      }
      RunKeepsHoleFree(m, k, s, resolve, t, pub, Last(w[..n], None), r.pursued, x, answered);
    } else {
      assert k.Keys == m.Keys;
    }
  }

  /** A sync without error, whose pursuit did not fail and of whose blocks none was refused,
      leaves the client with the whole walk, if it was asked from a held position, its part
      of the walk had no hole, and nothing served off the walk names a walk block above a
      missing one. */
  lemma SyncCompletes(h: Blocks, m: Blocks, k: Blocks, s: Blocks, resolve: bool, pub: Key, pos: Option<Digest>, served: seq<Digest>,
                      w: seq<Digest>, bound: nat, r: SourceSync, answered: bool)
    requires Sound(h) && Sound(s) && IsRun(s, pub, pos, served) && IsRun(s, pub, None, w)
    requires Synced(h, m, k, s, resolve, served, w, bound, r, true, answered) && r.end != PursuitFailed
    requires HoleFree(h, w) && PositionHeld(h, pos) && AllTame(h, s, w, served)
    ensures HoleFree(k, w) && (r.ok ==> HoldsAll(k, w))
  {
    SyncKeepsHoleFree(h, m, k, s, resolve, pub, pos, served, w, bound, r, answered, s, w);
    if r.ok {
      EndArrives(h, m, k, s, resolve, served, w, bound, r, answered);
      EndIsEverything(k, w);
    }
  }

  lemma EndArrives(h: Blocks, m: Blocks, k: Blocks, s: Blocks, resolve: bool, served: seq<Digest>,
                   w: seq<Digest>, bound: nat, r: SourceSync, answered: bool)
    requires Synced(h, m, k, s, resolve, served, w, bound, r, true, answered) && r.end != PursuitFailed && r.ok
    ensures w != [] && w[|w| - 1] in k
  {
    hide Brought;
    var n := |w| - |r.pursued|;
    if r.end != NoPursuit {
      assert n < |w| && w[n..][|w| - 1 - n] == w[|w| - 1];
    }
  }

  /** Asked from genesis, with ranges long enough for the walk, it has the whole walk
      whatever it held before and whatever any block names. */
  lemma GenesisCompletes(h: Blocks, m: Blocks, k: Blocks, s: Blocks, resolve: bool, served: seq<Digest>,
                         w: seq<Digest>, bound: nat, r: SourceSync, answered: bool)
    requires Synced(h, m, k, s, resolve, served, w, bound, r, true, answered) && r.ok && w == served
    ensures HoldsAll(k, w)
  {
    hide Brought, Backed;
  }

  /** With every request answered and no block refused, what the client ends with is
      determined, and so is whether that is the whole walk: iff no gap is left. */
  lemma SyncIsExact(h: Blocks, m: Blocks, k: Blocks, s: Blocks, resolve: bool, pub: Key, served: seq<Digest>,
                    w: seq<Digest>, bound: nat, r: SourceSync)
    requires Sound(s) && IsRun(s, pub, None, w)
    requires Synced(h, m, k, s, resolve, served, w, bound, r, true, true) && r.ok
    ensures var a := h.Keys + Brought(s, resolve, served);
      && k.Keys == Reached(a, s, resolve, w, bound)
      && (HoldsAll(k, w) <==> NoGap(a, s, resolve, w, bound))
      && (r.end == PursuitFailed <==> Met(a, w, bound) > 0 && w[Met(a, w, bound) - 1] !in a)
  {
    var a := h.Keys + Brought(s, resolve, served);
    TookAll(h, m, s, resolve, r.ranged);
    TookAll(m, k, s, resolve, r.pursued);
    PursuitIsMet(m, w, r, bound);
    hide Brought, Took, Met, IsRun, Sound;
    NoGapIsExact(k, a, s, resolve, pub, w, bound);
  }

  lemma PursuitIsMet(m: Blocks, w: seq<Digest>, r: SourceSync, bound: nat)
    requires Backed(m, w, r, bound, true) && r.ok
    ensures r.pursued == w[Met(m.Keys, w, bound)..]
    ensures r.end == PursuitFailed <==> Met(m.Keys, w, bound) > 0 && w[Met(m.Keys, w, bound) - 1] !in m.Keys
  {
    MetMeaning(m.Keys, w, bound, |w| - |r.pursued|);
  }

  lemma SameIfNothing(m: Blocks, k: Blocks, s: Blocks, resolve: bool, ds: seq<Digest>, answered: bool)
    requires Took(m, k, s, resolve, ds, true, answered)
    ensures ds == [] ==> k == m
  {
    if ds == [] { assert Brought(s, resolve, []) == {}; }
  }

  /** Where the source's blocks of the author keep rule 10, the author's blocks at the
      client stay closed under prev. */
  lemma SyncKeepsClosed(h: Blocks, m: Blocks, k: Blocks, s: Blocks, resolve: bool, pub: Key, pos: Option<Digest>, served: seq<Digest>,
                        w: seq<Digest>, bound: nat, r: SourceSync, answered: bool)
    requires Sound(h) && Sound(s) && IsRun(s, pub, pos, served) && IsRun(s, pub, None, w)
    requires Synced(h, m, k, s, resolve, served, w, bound, r, true, answered) && r.end != PursuitFailed
    requires PrevClosed(h, pub) && PositionHeld(h, pos) && KeepsRuleTen(s, pub)
    ensures PrevClosed(k, pub)
  {
    hide Backed, Brought, Took, Sound, IsRun, PrevClosed, KeepsRuleTen, PositionHeld, Last;
    PrefixIsRun(s, pub, pos, served, r.ranged);
    RunKeepsClosed(h, m, s, resolve, pub, pos, r.ranged, answered);
    var n := |w| - |r.pursued|;
    PursuitStartsHeld(m, w, r, bound, answered);
    SameIfNothing(m, k, s, resolve, r.pursued, answered);
    if r.pursued != [] {
      SuffixIsRun(s, pub, None, w, n);
      RunKeepsClosed(m, k, s, resolve, pub, Last(w[..n], None), r.pursued, answered);
    }
  }

  /** What one source's sync promises, however it went:
      - asked from genesis or from a held block of the walk, of a client whose part of the
        walk has no hole, it ends with the whole walk unless it was cut short; so it does
        from any other held block if nothing served from there names a walk block above a
        missing one;
      - so it does when the ranges hold the whole walk, as they do from genesis if the walk
        is not longer than they reach, whatever the client held;
      - undisturbed, it ends with exactly what `Reached` says, and with the whole walk iff
        `NoGap`;
      - where rule 10 is kept, the author's blocks stay closed under prev. */
  ghost predicate Promise(h: Blocks, k: Blocks, s: Blocks, resolve: bool, pub: Key, pos: Option<Digest>, served: seq<Digest>,
                          w: seq<Digest>, bound: nat, r: SourceSync, clean: bool, answered: bool) {
    && (clean && r.end != PursuitFailed && HoleFree(h, w) && PositionHeld(h, pos)
        && (pos.None? || pos.value in w || AllTame(h, s, w, served)) ==>
          HoleFree(k, w) && (r.ok ==> HoldsAll(k, w)))
    && (clean && r.ok && served == w ==> HoldsAll(k, w))
    && (clean && answered && r.ok ==>
          var a := h.Keys + Brought(s, resolve, served);
          k.Keys == Reached(a, s, resolve, w, bound) && (HoldsAll(k, w) <==> NoGap(a, s, resolve, w, bound)))
    && (clean && r.end != PursuitFailed && PrevClosed(h, pub) && PositionHeld(h, pos) && KeepsRuleTen(s, pub) ==> PrevClosed(k, pub))
  }

  lemma SyncKeepsItsPromise(h: Blocks, m: Blocks, k: Blocks, s: Blocks, resolve: bool, pub: Key, pos: Option<Digest>, served: seq<Digest>,
                            w: seq<Digest>, bound: nat, r: SourceSync, clean: bool, answered: bool)
    requires Sound(h) && Sound(s) && IsRun(s, pub, pos, served) && IsRun(s, pub, None, w)
    requires Synced(h, m, k, s, resolve, served, w, bound, r, clean, answered)
    requires pos.None? || pos.value in w ==> AllTame(h, s, w, served)
    ensures Promise(h, k, s, resolve, pub, pos, served, w, bound, r, clean, answered)
  {
    hide Sound, IsRun, Synced, HoleFree, PositionHeld, AllTame, HoldsAll, PrevClosed, KeepsRuleTen, Brought, Reached, NoGap;
    if clean && r.end != PursuitFailed && HoleFree(h, w) && PositionHeld(h, pos) && AllTame(h, s, w, served) {
      SyncCompletes(h, m, k, s, resolve, pub, pos, served, w, bound, r, answered);
    }
    if clean && r.ok && served == w {
      GenesisCompletes(h, m, k, s, resolve, served, w, bound, r, answered);
    }
    if clean && answered && r.ok {
      SyncIsExact(h, m, k, s, resolve, pub, served, w, bound, r);
    }
    if clean && r.end != PursuitFailed && PrevClosed(h, pub) && PositionHeld(h, pos) && KeepsRuleTen(s, pub) {
      SyncKeepsClosed(h, m, k, s, resolve, pub, pos, served, w, bound, r, answered);
    }
  }

  // ---- several sources -------------------------------------------------------------------

  /** A source's blocks, its tip walk, and how many blocks the client's ranges may hold. */
  datatype Chain = Chain(blocks: Blocks, walk: seq<Digest>, reach: nat)

  /** No block of the author at the source names a block of the walk above one the client
      lacks, other than from the walk itself. */
  ghost predicate Civil(h: Blocks, s: Blocks, pub: Key, w: seq<Digest>) {
    forall d :: d in s && s[d].pub == pub ==> d in w || Tame(h, s, w, d)
  }

  /** The client has no hole in any source's walk, and no source's blocks make one. */
  ghost predicate Steady(h: Blocks, chains: seq<Chain>, pub: Key) {
    && (forall i :: 0 <= i < |chains| ==> HoleFree(h, chains[i].walk))
    && (forall i, j :: 0 <= i < |chains| && 0 <= j < |chains| ==> Civil(h, chains[j].blocks, pub, chains[i].walk))
  }

  ghost predicate AreChains(chains: seq<Chain>, pub: Key) {
    forall i :: 0 <= i < |chains| ==> Sound(chains[i].blocks) && IsRun(chains[i].blocks, pub, None, chains[i].walk)
  }

  /** Closed under prev at the client, and rule 10 at the sources, are enough. */
  lemma RuleTenIsSteady(h: Blocks, chains: seq<Chain>, pub: Key)
    requires Sound(h) && AreChains(chains, pub) && PrevClosed(h, pub)
    requires forall i :: 0 <= i < |chains| ==> KeepsRuleTen(chains[i].blocks, pub)
    ensures Steady(h, chains, pub)
  {
    hide Sound, IsRun, PrevClosed, KeepsRuleTen, HoleFree, Tame;
    forall i | 0 <= i < |chains| ensures HoleFree(h, chains[i].walk) {
      ClosedIsHoleFree(h, chains[i].blocks, pub, chains[i].walk);
    }
    forall i, j | 0 <= i < |chains| && 0 <= j < |chains| ensures Civil(h, chains[j].blocks, pub, chains[i].walk) {
      forall d | d in chains[j].blocks && chains[j].blocks[d].pub == pub ensures Tame(h, chains[j].blocks, chains[i].walk, d) {
        RuleTenIsTame(h, chains[j].blocks, chains[i].blocks, pub, chains[i].walk, d);
      }
    }
  }

  lemma CivilRun(h: Blocks, s: Blocks, pub: Key, w: seq<Digest>, pos: Option<Digest>, ds: seq<Digest>)
    requires Civil(h, s, pub, w) && IsRun(s, pub, pos, ds)
    ensures AllTame(h, s, w, ds)
  {
    hide Tame;
    forall d | d in ds ensures d in w || Tame(h, s, w, d) {
      var i :| 0 <= i < |ds| && ds[i] == d;
    }
  }

  lemma CivilStays(h: Blocks, k: Blocks, s: Blocks, pub: Key, w: seq<Digest>)
    requires Civil(h, s, pub, w) && Extends(h, k)
    ensures Civil(k, s, pub, w)
  {
  }

  lemma SyncedExtends(h: Blocks, m: Blocks, k: Blocks, s: Blocks, resolve: bool, served: seq<Digest>, w: seq<Digest>, bound: nat,
                      r: SourceSync, clean: bool, answered: bool)
    requires Synced(h, m, k, s, resolve, served, w, bound, r, clean, answered)
    ensures Sound(k) && Extends(h, k)
    ensures clean && r.ranged != [] ==> r.ranged[|r.ranged| - 1] in k
  {
    hide Backed, Brought;
  }

  /** One source of several: nothing it brings makes a hole in any of their walks. */
  lemma SteadyStays(h: Blocks, m: Blocks, k: Blocks, resolve: bool, chains: seq<Chain>, n: nat, pub: Key, pos: Option<Digest>,
                    served: seq<Digest>, bound: nat, r: SourceSync, answered: bool)
    requires n < |chains| && Sound(h) && AreChains(chains, pub) && IsRun(chains[n].blocks, pub, pos, served)
    requires Synced(h, m, k, chains[n].blocks, resolve, served, chains[n].walk, bound, r, true, answered) && r.end != PursuitFailed
    requires Steady(h, chains, pub) && PositionHeld(h, pos)
    ensures Steady(k, chains, pub) && (r.ok ==> HoldsAll(k, chains[n].walk))
  {
    var s, w := chains[n].blocks, chains[n].walk;
    SyncedExtends(h, m, k, s, resolve, served, w, bound, r, true, answered);
    hide Sound, IsRun, HoleFree, Civil, AllTame, PositionHeld, Synced, Extends;
    forall i | 0 <= i < |chains| ensures HoleFree(k, chains[i].walk) {
      CivilRun(h, s, pub, chains[i].walk, pos, served);
      CivilRun(h, s, pub, chains[i].walk, None, w);
      SyncKeepsHoleFree(h, m, k, s, resolve, pub, pos, served, w, bound, r, answered, chains[i].blocks, chains[i].walk);
    }
    forall i, j | 0 <= i < |chains| && 0 <= j < |chains| ensures Civil(k, chains[j].blocks, pub, chains[i].walk) {
      CivilStays(h, k, chains[j].blocks, pub, chains[i].walk);
    }
    if r.ok {
      EndArrives(h, m, k, s, resolve, served, w, bound, r, answered);
      EndIsEverything(k, w);
    }
  }
}
