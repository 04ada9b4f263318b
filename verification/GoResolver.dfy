/** The demand-driven resolver: own operations, then ancestors one at a time, then
    the refs graph one block at a time, keeping its place between lookups. */
module GoResolver {
  import opened Blocks
  import opened Options
  import opened Search

  // ---- where a search stands --------------------------------------------------

  /** A search in progress: the chain climbed so far, the graph read so far, the
      worklist, and the gaps met. */
  datatype Progress = Progress(
    climbed: seq<Digest>, next: Option<Digest>, ancestorGap: Option<Digest>,
    read: seq<Digest>, queue: seq<Digest>, scanned: nat,
    refsGap: Option<Digest>, keyGap: Option<Digest>)

  ghost predicate ChainAt(s: Blocks, prev: Option<Digest>, climbed: seq<Digest>, next: Option<Digest>, gap: Option<Digest>)
    requires Sound(s)
  {
    && climbed + Ancestors(s, next) == Ancestors(s, prev)
    && (if next.Some? then gap.None? && AncestorGap(s, next) == AncestorGap(s, prev) else gap == AncestorGap(s, prev))
  }

  /** `read` has been read and `queue` waits. */
  ghost predicate GraphAt(s: Blocks, keys: Keyring, roots: seq<Digest>, read: seq<Digest>, queue: seq<Digest>) {
    Sweep(s, keys, read, queue) == Order(s, keys, roots)
  }

  ghost predicate At(s: Blocks, keys: Keyring, limit: int, q: Query, p: Progress)
    requires Sound(s)
  {
    && ChainAt(s, q.prev, p.climbed, p.next, p.ancestorGap)
    && GraphAt(s, keys, q.roots, p.read, p.queue)
    && p.scanned == HeldCount(s, p.read) && Within(limit, p.scanned)
    && p.refsGap == FirstUnheld(s, p.read)
    && p.keyGap == FirstSealed(s, keys, p.climbed + p.read)
    && (p.read != [] ==> p.next.None?)
  }

  /** The entities a search can answer for without reading on. */
  ghost function Known(s: Blocks, keys: Keyring, own: set<EntityDigest>, p: Progress): set<EntityDigest> {
    own + AllDefined(s, keys, p.climbed) + AllDefined(s, keys, p.read)
  }

  /** The ancestors not read yet, counting the one that may be missing. */
  ghost function Above(s: Blocks, next: Option<Digest>): nat
    requires Sound(s)
  {
    if next.None? then 0 else 1 + |Ancestors(s, next)|
  }

  function OrElse(a: Option<Digest>, b: Option<Digest>): Option<Digest> { if a.Some? then a else b }

  function IfSealed(s: Blocks, keys: Keyring, d: Digest): Option<Digest> { if Sealed(s, keys, d) then Some(d) else None }

  /** One more ancestor. */
  function ClimbStep(s: Blocks, keys: Keyring, p: Progress): Progress
    requires p.next.Some?
  {
    var d := p.next.value;
    if d !in s then p.(next := None, ancestorGap := Some(d))
    else p.(climbed := p.climbed + [d], next := s[d].prev, keyGap := OrElse(p.keyGap, IfSealed(s, keys, d)))
  }

  /** One more block of the refs graph, not read before. */
  function ReadStep(s: Blocks, keys: Keyring, p: Progress): Progress
    requires p.queue != []
  {
    var d := p.queue[0];
    if d !in s then p.(read := p.read + [d], queue := p.queue[1..], refsGap := OrElse(p.refsGap, Some(d)))
    else p.(read := p.read + [d], queue := p.queue[1..] + Out(s, keys, d), scanned := p.scanned + 1,
            keyGap := OrElse(p.keyGap, IfSealed(s, keys, d)))
  }

  lemma ChainClimbs(s: Blocks, prev: Option<Digest>, climbed: seq<Digest>, d: Digest, gap: Option<Digest>)
    requires Sound(s) && ChainAt(s, prev, climbed, Some(d), gap)
    ensures gap.None?
    ensures if d in s then ChainAt(s, prev, climbed + [d], s[d].prev, None) else ChainAt(s, prev, climbed, None, Some(d))
    ensures d in s ==> Above(s, s[d].prev) < Above(s, Some(d))
  {
    if d in s {
      assert climbed + Ancestors(s, Some(d)) == climbed + [d] + Ancestors(s, s[d].prev);
    } else {
      assert climbed + [] == climbed;
    }
  }

  lemma ScannedIsHeld(s: Blocks, keys: Keyring, limit: int, q: Query, p: Progress)
    requires Sound(s) && At(s, keys, limit, q, p)
    ensures p.scanned == HeldCount(s, p.read)
  {
  }

  lemma UnheldDefinesNothing(s: Blocks, keys: Keyring, d: Digest)
    requires d !in s
    ensures Defines(s, keys, d) == {}
  {
  }

  lemma ElementsAppend(list: seq<Digest>, d: Digest)
    ensures Elements(list + [d]) == Elements(list) + {d}
    ensures d in Elements(list) <==> d in list
  {
  }

  lemma ClimbKeepsPlace(s: Blocks, keys: Keyring, limit: int, q: Query, p: Progress, own: set<EntityDigest>)
    requires Sound(s) && At(s, keys, limit, q, p) && p.next.Some?
    ensures At(s, keys, limit, q, ClimbStep(s, keys, p))
    ensures Above(s, ClimbStep(s, keys, p).next) < Above(s, p.next)
    ensures Known(s, keys, own, ClimbStep(s, keys, p)) == Known(s, keys, own, p) + Defines(s, keys, p.next.value)
  {
    hide Sound, GraphAt, ChainAt, AllDefined, HeldCount, FirstUnheld, Defines;
    var d := p.next.value;
    ChainClimbs(s, q.prev, p.climbed, d, p.ancestorGap);
    if d in s {
      FirstSealedConcat(s, keys, p.climbed, [d]);
      AllDefinedAppend(s, keys, p.climbed, d);
      assert p.climbed + [] == p.climbed && p.climbed + [d] + [] == p.climbed + [d];
    } else {
      UnheldDefinesNothing(s, keys, d);
    }
  }

  lemma ReadKeepsPlace(s: Blocks, keys: Keyring, limit: int, q: Query, p: Progress, own: set<EntityDigest>)
    requires Sound(s) && At(s, keys, limit, q, p) && p.next.None?
    requires p.queue != [] && p.queue[0] !in p.read
    requires p.queue[0] in s ==> Within(limit, p.scanned + 1)
    ensures At(s, keys, limit, q, ReadStep(s, keys, p))
    ensures Known(s, keys, own, ReadStep(s, keys, p)) == Known(s, keys, own, p) + Defines(s, keys, p.queue[0])
  {
    hide Sound, ChainAt, Order, AllDefined, HeldCount, Unread;
    var d := p.queue[0];
    HeldCountAppend(s, p.read, d);
    AllDefinedAppend(s, keys, p.read, d);
    FirstUnheldConcat(s, p.read, [d]);
    FirstSealedConcat(s, keys, p.climbed + p.read, [d]);
    assert p.climbed + (p.read + [d]) == p.climbed + p.read + [d];
    assert p.queue[1..] + [] == p.queue[1..];
  }

  lemma HeldCountAppend(s: Blocks, list: seq<Digest>, d: Digest)
    ensures HeldCount(s, list + [d]) == HeldCount(s, list) + (if d in s then 1 else 0)
  {
    assert (list + [d])[..|list|] == list;
  }

  lemma SkipKeepsPlace(s: Blocks, keys: Keyring, limit: int, q: Query, p: Progress, own: set<EntityDigest>)
    requires Sound(s) && At(s, keys, limit, q, p) && p.queue != [] && p.queue[0] in p.read
    ensures At(s, keys, limit, q, p.(queue := p.queue[1..]))
    ensures Known(s, keys, own, p.(queue := p.queue[1..])) == Known(s, keys, own, p)
  {
    hide Sound, ChainAt, Order, AllDefined, HeldCount, Unread, FirstUnheld, FirstSealed;
  }

  lemma WithinMeaning(limit: int, n: nat)
    ensures Within(limit, n) <==> limit < 0 || n <= limit
  {
  }

  function Furthest(a: nat, b: nat): nat { if a < b then b else a }

  lemma ClimbReadsNoRefs(s: Blocks, keys: Keyring, p: Progress)
    requires p.next.Some?
    ensures ClimbStep(s, keys, p).read == p.read
  {
  }

  lemma ReadShrinks(s: Blocks, keys: Keyring, p: Progress)
    requires p.queue != [] && p.queue[0] !in p.read
    ensures var r := ReadStep(s, keys, p);
      && r.read == p.read + [p.queue[0]] && r.next == p.next
      && (Unread(s, r.read) < Unread(s, p.read) || (Unread(s, r.read) == Unread(s, p.read) && |r.queue| < |p.queue|))
  {
    UnreadAppend(s, p.read, p.queue[0]);
  }

  /** What a prefix of a list defines is what the list first defines inside it. */
  lemma DefinedBefore(s: Blocks, keys: Keyring, read: seq<Digest>, list: seq<Digest>, e: EntityDigest)
    requires read <= list
    ensures e in AllDefined(s, keys, read) <==> FirstDefining(s, keys, list, e) < |read|
  {
    AllDefinedMeaning(s, keys, read);
    FirstDefiningMeaning(s, keys, list, e);
    var i := FirstDefining(s, keys, list, e);
    if i < |read| { assert read[i] in read; }
  }

  // ---- where a search ends ----------------------------------------------------

  lemma ClimbedIsAncestors(s: Blocks, keys: Keyring, climbed: seq<Digest>, next: Option<Digest>, prev: Option<Digest>, gap: Option<Digest>)
    requires Sound(s) && ChainAt(s, prev, climbed, next, gap)
    ensures AllDefined(s, keys, climbed) <= AllDefined(s, keys, Ancestors(s, prev))
    ensures next.None? ==> climbed == Ancestors(s, prev)
  {
    AllDefinedMeaning(s, keys, climbed);
    AllDefinedMeaning(s, keys, Ancestors(s, prev));
    if next.None? { assert climbed + [] == climbed; }
  }

  /** A digest defined by what has been read is found, and needs no more reading. */
  lemma ReadIsFound(s: Blocks, keys: Keyring, limit: int, q: Query, own: set<EntityDigest>, p: Progress, e: EntityDigest)
    requires Sound(s) && At(s, keys, limit, q, p) && e in Known(s, keys, own, p)
    ensures Answers(s, keys, limit, q, own, e) == Found && Depth(s, keys, q, own, e) <= |p.read|
    ensures p.read <= Order(s, keys, q.roots)
  {
    hide Sound, Failure, FirstDefining, Ancestors, AllDefined, HeldCount, Order, Sweep, ChainAt, FirstUnheld, FirstSealed;
    var list := Order(s, keys, q.roots);
    ClimbedIsAncestors(s, keys, p.climbed, p.next, q.prev, p.ancestorGap);
    SweepPrefix(s, keys, p.read, p.queue);
    DefinedBefore(s, keys, p.read, list, e);
    FirstDefiningMeaning(s, keys, list, e);
    if e in AllDefined(s, keys, p.read) {
      assert list[..|p.read|] == p.read;
      HeldCountMonotone(s, list, FirstDefining(s, keys, list, e) + 1, |p.read|);
    }
  }

  /** A digest still unknown once the chain is climbed is defined, if anywhere, by a
      block not read yet. */
  lemma UnreadIsAhead(s: Blocks, keys: Keyring, limit: int, q: Query, own: set<EntityDigest>, p: Progress, e: EntityDigest)
    requires Sound(s) && At(s, keys, limit, q, p) && p.next.None? && e !in Known(s, keys, own, p)
    ensures e !in own + AllDefined(s, keys, Ancestors(s, q.prev))
    ensures p.read <= Order(s, keys, q.roots)
    ensures FirstDefining(s, keys, Order(s, keys, q.roots), e) >= |p.read|
    ensures p.queue != [] && p.queue[0] !in p.read ==> Depth(s, keys, q, own, e) > |p.read|
  {
    hide Sound, FirstDefining, Ancestors, AllDefined, HeldCount, Order, ChainAt, FirstUnheld, FirstSealed, Unread;
    ClimbedIsAncestors(s, keys, p.climbed, p.next, q.prev, p.ancestorGap);
    SweepPrefix(s, keys, p.read, p.queue);
    DefinedBefore(s, keys, p.read, Order(s, keys, q.roots), e);
    if p.queue != [] && p.queue[0] !in p.read {
      SweepPrefix(s, keys, p.read + [p.queue[0]], p.queue[1..] + Out(s, keys, p.queue[0]));
    }
  }

  /** If the next held block is over the limit, so is the lookup. */
  lemma OverLimit(s: Blocks, keys: Keyring, limit: int, q: Query, own: set<EntityDigest>, p: Progress, e: EntityDigest)
    requires Sound(s) && At(s, keys, limit, q, p) && p.next.None? && e !in Known(s, keys, own, p)
    requires p.queue != [] && p.queue[0] !in p.read && p.queue[0] in s && !Within(limit, p.scanned + 1)
    ensures Answers(s, keys, limit, q, own, e) == LimitHit
  {
    hide Sound, Failure, FirstDefining, Ancestors, AllDefined, HeldCount, Order, Out, ChainAt, FirstUnheld, FirstSealed, Unread, Known;
    var list, next := Order(s, keys, q.roots), p.read + [p.queue[0]];
    UnreadIsAhead(s, keys, limit, q, own, p, e);
    SweepPrefix(s, keys, next, p.queue[1..] + Out(s, keys, p.queue[0]));
    assert list[..|next|] == next && list[..|list|] == list;
    HeldCountAppend(s, p.read, p.queue[0]);
    HeldCountMonotone(s, list, |next|, |list|);
    var i := FirstDefining(s, keys, list, e);
    if i < |list| { HeldCountMonotone(s, list, |next|, i + 1); }
  }

  /** When everything has been read, the recorded gaps are the failure. */
  lemma ExhaustedIsFailure(s: Blocks, keys: Keyring, limit: int, q: Query, own: set<EntityDigest>, p: Progress, e: EntityDigest)
    requires Sound(s) && At(s, keys, limit, q, p) && p.next.None? && p.queue == [] && e !in Known(s, keys, own, p)
    ensures p.read == Order(s, keys, q.roots) && Depth(s, keys, q, own, e) == |p.read|
    ensures Answers(s, keys, limit, q, own, e)
         == if p.ancestorGap.Some? then Awaits(p.ancestorGap.value)
            else if p.refsGap.Some? then Awaits(p.refsGap.value)
            else if p.keyGap.Some? then Locked(p.keyGap.value) else Absent
  {
    hide Sound, FirstDefining, Ancestors, AncestorGap, AllDefined, HeldCount, Order, FirstUnheld, FirstSealed, Unread;
    UnreadIsAhead(s, keys, limit, q, own, p, e);
    ClimbedIsAncestors(s, keys, p.climbed, p.next, q.prev, p.ancestorGap);
  }

  /** Every definition is the one its digest fixes. */
  ghost predicate GoodDefs(defs: map<EntityDigest, Record>) {
    forall e :: e in defs ==> e.EntityHash? && defs[e] == RecordOf(e.entity)
  }

  // ---- the resolver -----------------------------------------------------------

  class Resolver {
    const src: Blocks
    const keys: Keyring
    const limit: int
    ghost const query: Query

    var defs: map<EntityDigest, Record>
    var cache: Blocks
    var nextAncestor: Option<Digest>
    var ancestorGap: Option<Digest>
    var refsGap: Option<Digest>
    var keyGap: Option<Digest>
    var queue: seq<Digest>
    var visited: set<Digest>
    var scanned: nat

    /** What the block's own earlier operations created. */
    ghost var own: set<EntityDigest>
    ghost var climbed: seq<Digest>
    ghost var read: seq<Digest>

    ghost function Here(): Progress
      reads this
    {
      Progress(climbed, nextAncestor, ancestorGap, read, queue, scanned, refsGap, keyGap)
    }

    ghost predicate Valid()
      reads this
    {
      && Sound(src) && Extends(cache, src) && GoodDefs(defs) && visited == Elements(read)
      && At(src, keys, limit, query, Here())
      && defs.Keys == Known(src, keys, own, Here())
    }

    constructor (s: Blocks, keyring: Keyring, lim: int, prev: Option<Digest>, refs: seq<Digest>)
      requires Sound(s)
      ensures Valid() && own == {} && read == []
      ensures src == s && keys == keyring && limit == lim && query == Query(prev, refs)
    {
      src, keys, limit, query := s, keyring, lim, Query(prev, refs);
      defs, cache := map[], map[];
      nextAncestor, ancestorGap, refsGap, keyGap := prev, None, None, None;
      queue, visited, scanned := refs, {}, 0;
      own, climbed, read := {}, [], [];
    }

    method Fetch(d: Digest) returns (b: Option<Block>)
      requires Extends(cache, src)
      modifies this`cache
      ensures Extends(cache, src)
      ensures b == if d in src then Some(src[d]) else None
      ensures cache.Keys == old(cache.Keys) + if d in src then {d} else {}
    {
      if d in cache { return Some(cache[d]); }
      if d !in src { return None; }
      cache := cache[d := src[d]];
      return Some(src[d]);
    }

    /** Records the entity an operation creates; the first definition stays. */
    method Define(op: Operation)
      requires GoodDefs(defs)
      modifies this`defs
      ensures GoodDefs(defs) && defs.Keys == old(defs.Keys) + Created([op])
    {
      assert op in [op];
      match op
      case RotateKey(_) =>
        assert Created([op]) == {};
      case Create(entity) =>
        assert Created([op]) == {EntityHash(entity)};
        if EntityHash(entity) !in defs {
          defs := defs[EntityHash(entity) := RecordOf(entity)];
        }
    }

    method DefineAll(ops: seq<Operation>)
      requires GoodDefs(defs)
      modifies this`defs
      ensures GoodDefs(defs) && defs.Keys == old(defs.Keys) + Created(ops)
    {
      for i := 0 to |ops|
        invariant GoodDefs(defs) && defs.Keys == old(defs.Keys) + Created(ops[..i])
      {
        Define(ops[i]);
        assert ops[..i + 1] == ops[..i] + [ops[i]];
        assert Created(ops[..i + 1]) == Created(ops[..i]) + Created([ops[i]]);
      }
      assert ops[..|ops|] == ops;
    }

    /** Makes an operation of the block itself visible to the ones after it. */
    method DefineOwn(op: Operation)
      requires Valid()
      modifies this`defs, this`own
      ensures Valid() && own == old(own) + Created([op])
    {
      hide Sound, At, AllDefined, Created;
      Define(op);
      own := own + Created([op]);
    }

    /** Reads the operations of a held block, or notes that it needs a key. */
    method ReadInto(d: Digest) returns (refs: seq<Digest>)
      requires d in src && GoodDefs(defs)
      modifies this`keyGap, this`defs
      ensures GoodDefs(defs) && defs.Keys == old(defs.Keys) + Defines(src, keys, d)
      ensures keyGap == OrElse(old(keyGap), IfSealed(src, keys, d))
      ensures refs == Out(src, keys, d)
    {
      var target := src[d];
      if target.content.Private? {
        if d !in keys {
          if keyGap.None? { keyGap := Some(d); }
          return [];
        }
        DefineAll(target.content.sealed.ops);
        return target.content.sealed.refs;
      }
      DefineAll(Plaintext(target).value.ops);
      return Plaintext(target).value.refs;
    }

    /** Reads one block of the refs graph and queues its own refs. */
    method Scan(d: Digest)
      requires d in src && GoodDefs(defs)
      modifies this`keyGap, this`defs, this`queue, this`scanned, this`read
      ensures GoodDefs(defs) && defs.Keys == old(defs.Keys) + Defines(src, keys, d)
      ensures keyGap == OrElse(old(keyGap), IfSealed(src, keys, d))
      ensures queue == old(queue) + Out(src, keys, d) && read == old(read) + [d] && scanned == old(scanned) + 1
    {
      hide GoodDefs;
      scanned := scanned + 1;
      var refs := ReadInto(d);
      queue := queue + refs;
      read := read + [d];
    }

    method ExtendAncestors()
      requires Valid() && nextAncestor.Some?
      modifies this`cache, this`nextAncestor, this`ancestorGap, this`keyGap, this`defs, this`climbed
      ensures Valid() && Here() == ClimbStep(src, keys, old(Here()))
      ensures Above(src, nextAncestor) < old(Above(src, nextAncestor))
    {
      hide Sound, At, Known, Above;
      var d := nextAncestor.value;
      ClimbKeepsPlace(src, keys, limit, query, Here(), own);
      var ancestor := Fetch(d);
      if ancestor.None? {
        ancestorGap, nextAncestor := Some(d), None;
        return;
      }
      var _ := ReadInto(d);
      nextAncestor, climbed := ancestor.value.prev, climbed + [d];
    }

    /** One entry of the worklist: seen before, over the limit, or read. */
    method ExtendRefs() returns (limitHit: bool)
      requires Valid() && queue != [] && nextAncestor.None?
      modifies this`cache, this`queue, this`visited, this`scanned, this`refsGap, this`keyGap, this`defs, this`read
      ensures limitHit == old(queue[0] !in read && queue[0] in src && !Within(limit, scanned + 1))
      ensures !limitHit ==> Valid()
      ensures old(queue[0] in read) ==> defs == old(defs)
      ensures !limitHit ==> Here() == if old(queue[0] in read) then old(Here()).(queue := old(queue)[1..])
                                      else ReadStep(src, keys, old(Here()))
    {
      hide Sound, At, Known, Within, Elements, Extends, GoodDefs, ReadStep;
      ElementsAppend(read, queue[0]);
      if queue[0] in visited {
        SkipKeepsPlace(src, keys, limit, query, Here(), own);
        queue := queue[1..];
        return false;
      }
      limitHit := ReadFront();
    }

    /** The front of the worklist, not read before. */
    method ReadFront() returns (limitHit: bool)
      requires Valid() && queue != [] && nextAncestor.None? && queue[0] !in read
      modifies this`cache, this`queue, this`visited, this`scanned, this`refsGap, this`keyGap, this`defs, this`read
      ensures limitHit == old(queue[0] in src && !Within(limit, scanned + 1))
      ensures !limitHit ==> Valid() && Here() == ReadStep(src, keys, old(Here()))
    {
      hide Sound, At, Known, Within, Elements, Extends, GoodDefs, Out, Defines, IfSealed, OrElse;
      var d := queue[0];
      ElementsAppend(read, d);
      ghost var before := Here();
      queue := queue[1..];
      visited := visited + {d};
      var target := Fetch(d);
      WithinMeaning(limit, scanned + 1);
      if target.None? {
        ReadKeepsPlace(src, keys, limit, query, before, own);
        UnheldDefinesNothing(src, keys, d);
        NoteUnheld(d);
        return false;
      }
      if limit >= 0 && scanned >= limit {
        return true;
      }
      ReadKeepsPlace(src, keys, limit, query, before, own);
      Scan(d);
      return false;
    }

    method NoteUnheld(d: Digest)
      modifies this`refsGap, this`read
      ensures refsGap == OrElse(old(refsGap), Some(d)) && read == old(read) + [d]
    {
      if refsGap.None? { refsGap := Some(d); }
      read := read + [d];
    }

    /** Whatever was looked up before, the lookup answers as `Answers` says, and the
        refs graph has then been read exactly as far as the furthest lookup needed. */
    method Resolve(e: EntityDigest) returns (a: Answer, rec: Record)
      requires Valid()
      modifies this
      ensures a == Answers(src, keys, limit, query, own, e)
      ensures own == old(own)
      ensures a.Found? ==> e.EntityHash? && rec == RecordOf(e.entity)
      ensures !a.LimitHit? ==> Valid() && read <= Order(src, keys, query.roots)
      ensures !a.LimitHit? ==> |read| == Furthest(|old(read)|, Depth(src, keys, query, own, e))
    {
      hide Sound, Answers, Depth, At, Known, Order, Above, Unread, ClimbStep, ReadStep;
      rec := Record(AtomKind, 0);
      if e in defs {
        ReadIsFound(src, keys, limit, query, own, Here(), e);
        return Found, defs[e];
      }
      while nextAncestor.Some?
        invariant Valid() && own == old(own) && read == old(read) && e !in defs
        decreases Above(src, nextAncestor)
      {
        ghost var before := Here();
        ExtendAncestors();
        assert read == before.read by { ClimbReadsNoRefs(src, keys, before); }
        if e in defs {
          ReadIsFound(src, keys, limit, query, own, Here(), e);
          return Found, defs[e];
        }
      }
      while |queue| > 0
        invariant Valid() && own == old(own) && nextAncestor.None? && e !in defs
        invariant |old(read)| <= |read|
        decreases Unread(src, read), |queue|
      {
        UnreadIsAhead(src, keys, limit, query, own, Here(), e);
        ghost var before := Here();
        var limitHit := ExtendRefs();
        if limitHit {
          OverLimit(src, keys, limit, query, own, before, e);
          return LimitHit, rec;
        }
        if before.queue[0] !in before.read { ReadShrinks(src, keys, before); }
        if e in defs {
          ReadIsFound(src, keys, limit, query, own, Here(), e);
          return Found, defs[e];
        }
      }
      ExhaustedIsFailure(src, keys, limit, query, own, Here(), e);
      if ancestorGap.Some? {
        return Awaits(ancestorGap.value), rec;
      }
      if refsGap.Some? {
        return Awaits(refsGap.value), rec;
      }
      if keyGap.Some? {
        return Locked(keyGap.value), rec;
      }
      return Absent, rec;
    }
  }
}
